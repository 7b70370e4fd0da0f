/**
 * Sector classification and the SLA deadline rule of utils/classification.py.
 *
 * A shipment row carries a dock `box` (possibly missing or non-numeric) and an
 * order-type code.  `ApplySetorRules` walks the ordered rule table and, rule by
 * rule, writes the rule's name into every row that the rule matches and whose
 * label is still the default.  `FirstMatch` is the reference meaning of that
 * loop for one row: the name of the first matching rule whose name differs from
 * the default.
 */
module Classification {
  import opened Wrappers

  /** One row of a table of classification rules. */
  datatype SetorRule = SetorRule(
    nome: string,
    tiposPedido: seq<string>,
    boxRange: Option<(int, int)>)  // None also stands for Python's falsy `()`

  /** The two columns of a shipment row that classification reads. */
  datatype Row = Row(box: Option<int>, tipoDePedido: string)

  const DefaultSetor: string := "Outras Saidas"

  const BoxSentinel: int := -1

  /** The sector table, in evaluation order. */
  const SetorRules: seq<SetorRule> := [
    SetorRule("Fracionado Pesados",
      ["S01 - ENTREGA A CLIENTES"],
      Some((557, 584))),
    SetorRule("EAD - Abastecimento de Lojas",
      ["S13 - ABASTECIMENTO DE LOJA BOA", "S14 - ABASTECIMENTO DE LOJA QEB",
       "S46 - ABASTECIMENTO RETIRA LOJA", "S48 - ABASTECIMENTO CEL RJ",
       "S11 - TRANSF. LOJA VIA DEPOSITO BOA"],
      Some((595, 638))),
    SetorRule("Polo - Abastecimento de Lojas",
      ["S13 - ABASTECIMENTO DE LOJA BOA", "S14 - ABASTECIMENTO DE LOJA QEB",
       "S46 - ABASTECIMENTO RETIRA LOJA", "S48 - ABASTECIMENTO CEL RJ",
       "S11 - TRANSF. LOJA VIA DEPOSITO BOA"],
      Some((277, 326))),
    SetorRule("Ribeirao Preto + Uberlandia",
      ["S01 - ENTGA A CLIENTES"],
      Some((331, 412))),
    SetorRule("Entrega Cliente + Polo-SP",
      ["S01 - ENTREGA A CLIENTES", "S02 - RETIRA CLIENTE DEPOSITO"],
      Some((413, 556))),
    // The source writes this list as '' followed by the code on the next
    // line; adjacent literals concatenate, so it holds the one code below.
    SetorRule("EAD - Balanço",
      ["S53 - TRANSFERENCIA ENTRE CDS"],
      Some((595, 638))),
    SetorRule("", [], None),
    SetorRule("Abastecimento de Lojas",
      ["S13 - ABASTECIMENTO DE LOJA BOA", "S14 - ABASTECIMENTO DE LOJA QEB",
       "S46 - ABASTECIMENTO RETIRA LOJA", "S48 - ABASTECIMENTO CEL RJ",
       "S11 - TRANSF. LOJA VIA DEPOSITO BOA"],
      None),
    SetorRule("Ribeirao Preto + Uberlandia",
      ["S01 - ENTREGA A CLIENTES", "S02 - RETIRA CLIENTE DEPOSITO"],
      None),
    SetorRule("Balanco",
      ["S53 - TRANSFERENCIA ENTRE CDS"],
      None),
    SetorRule("EAD",
      ["S05 - TRANSF EAD PROGRAMADA", "S04 - TRANSF EAD AUTOMATICA"],
      None),
    SetorRule("Leves",
      ["S39 - EXPEDICAO LEVES", "S39M - EXPEDICAO LEVES", "S39R - Single line",
       "S39R - SINGLE LINE", "S39P - EXPEDICAO LEVES", "S39I - EXPEDICAO LEVES"],
      None)
  ]

  /** The box after numeric coercion: a missing or non-numeric box becomes -1. */
  function BoxValue(box: Option<int>): int {
    box.GetOr(BoxSentinel)
  }

  /** The mask of one rule at one row: the type is listed and, when the rule
      declares a range, the box lies in it, both ends included. */
  predicate Matches(rule: SetorRule, box: int, tipo: string) {
    && tipo in rule.tiposPedido
    && (rule.boxRange.Some? ==> rule.boxRange.value.0 <= box <= rule.boxRange.value.1)
  }

  /** The label a row ends with: the name of the first matching rule whose name
      is not the default, or the default when there is none. */
  function FirstMatch(rules: seq<SetorRule>, box: int, tipo: string, default: string): (setor: string)
    ensures setor == default ||
            exists j :: 0 <= j < |rules| && rules[j].nome == setor && Matches(rules[j], box, tipo)
  {
    if rules == [] then default
    else if Matches(rules[0], box, tipo) && rules[0].nome != default then rules[0].nome
    else
      var rest := FirstMatch(rules[1..], box, tipo, default);
      assert rest != default ==> exists j :: 0 <= j < |rules| && rules[j].nome == rest && Matches(rules[j], box, tipo) by {
        if rest != default {
          var j :| 0 <= j < |rules[1..]| && rules[1..][j].nome == rest && Matches(rules[1..][j], box, tipo);
          assert rules[j + 1] == rules[1..][j];
        }
      }
      rest
  }

  /** Evaluating one more rule after a prefix of the table: a row whose label
      already differs from the default keeps it, any other row takes the new
      rule's name when the rule matches. */
  lemma {:induction false} FirstMatchSnoc(rules: seq<SetorRule>, rule: SetorRule, box: int, tipo: string, default: string)
    ensures FirstMatch(rules + [rule], box, tipo, default) ==
            var before := FirstMatch(rules, box, tipo, default);
            if before != default then before
            else if Matches(rule, box, tipo) then rule.nome
            else default
  {
    if rules == [] {
      assert [rule][1..] == [];
    } else {
      assert (rules + [rule])[1..] == rules[1..] + [rule];
      FirstMatchSnoc(rules[1..], rule, box, tipo, default);
    }
  }

  /** Once a row's label differs from the default, no later rule changes it. */
  lemma {:induction false} LabelIsSticky(rules: seq<SetorRule>, later: seq<SetorRule>, box: int, tipo: string, default: string)
    requires FirstMatch(rules, box, tipo, default) != default
    ensures FirstMatch(rules + later, box, tipo, default) == FirstMatch(rules, box, tipo, default)
  {
    if rules != [] {
      assert (rules + later)[1..] == rules[1..] + later;
      if !(Matches(rules[0], box, tipo) && rules[0].nome != default) {
        LabelIsSticky(rules[1..], later, box, tipo, default);
      }
    }
  }

  /** First match wins: a matching rule whose name is not the default decides
      the label when no earlier rule did. */
  lemma {:induction false} FirstMatchWins(rules: seq<SetorRule>, j: nat, box: int, tipo: string, default: string)
    requires j < |rules|
    requires Matches(rules[j], box, tipo) && rules[j].nome != default
    requires forall i :: 0 <= i < j ==> !Matches(rules[i], box, tipo) || rules[i].nome == default
    ensures FirstMatch(rules, box, tipo, default) == rules[j].nome
  {
    if j > 0 {
      FirstMatchWins(rules[1..], j - 1, box, tipo, default);
    }
  }

  /** A row that no rule matches keeps the default label. */
  lemma {:induction false} NoMatchKeepsDefault(rules: seq<SetorRule>, box: int, tipo: string, default: string)
    requires forall i :: 0 <= i < |rules| ==> !Matches(rules[i], box, tipo)
    ensures FirstMatch(rules, box, tipo, default) == default
  {
    if rules != [] {
      NoMatchKeepsDefault(rules[1..], box, tipo, default);
    }
  }

  /** A rule with no order types never matches, so taking it out of the table
      changes no label (the unnamed rule of the sector table is one). */
  lemma {:induction false} EmptyTypesRuleIsInert(rules: seq<SetorRule>, k: nat, box: int, tipo: string, default: string)
    requires k < |rules| && rules[k].tiposPedido == []
    ensures FirstMatch(rules[..k] + rules[k + 1..], box, tipo, default) == FirstMatch(rules, box, tipo, default)
  {
    if k == 0 {
      assert rules[..0] + rules[1..] == rules[1..];
    } else {
      assert (rules[..k] + rules[k + 1..])[0] == rules[0];
      assert (rules[..k] + rules[k + 1..])[1..] == rules[1..][..k - 1] + rules[1..][k..];
      EmptyTypesRuleIsInert(rules[1..], k - 1, box, tipo, default);
    }
  }

  /** Every ranged rule of the sector table has positive bounds, so the -1 of a
      missing or non-numeric box falls outside all of them. */
  lemma SentinelMissesRangedRules(tipo: string)
    ensures forall i :: 0 <= i < |SetorRules| && SetorRules[i].boxRange.Some? ==>
              !Matches(SetorRules[i], BoxValue(None), tipo)
  {
    forall i | 0 <= i < |SetorRules| && SetorRules[i].boxRange.Some?
      ensures SetorRules[i].boxRange.value.0 > 0
    {
    }
  }

  /** The label `FirstMatch` gives one row. */
  function RowLabel(rules: seq<SetorRule>, row: Row, default: string): string {
    FirstMatch(rules, BoxValue(row.box), row.tipoDePedido, default)
  }

  /**
   * apply_setor_rules: one label per row, in row order.  The labels live in an
   * array that starts all-default; each rule overwrites, under its mask, the
   * entries that are still the default.
   */
  method ApplySetorRules(rows: seq<Row>, rules: seq<SetorRule>, default: string) returns (resultado: seq<string>)
    ensures |resultado| == |rows|
    ensures forall i :: 0 <= i < |rows| ==> resultado[i] == RowLabel(rules, rows[i], default)
  {
    var labels := new string[|rows|](_ => default);
    for k := 0 to |rules|
      invariant forall i :: 0 <= i < |rows| ==> labels[i] == RowLabel(rules[..k], rows[i], default)
    {
      ApplyRule(labels, rows, rules, k, default);
    }
    assert rules[..|rules|] == rules;
    resultado := labels[..];
  }

  /** One rule of the table: every row it matches whose label is still the
      default takes the rule's name. */
  method ApplyRule(labels: array<string>, rows: seq<Row>, rules: seq<SetorRule>, k: nat, default: string)
    requires k < |rules| && labels.Length == |rows|
    requires forall i :: 0 <= i < |rows| ==> labels[i] == RowLabel(rules[..k], rows[i], default)
    modifies labels
    ensures forall i :: 0 <= i < |rows| ==> labels[i] == RowLabel(rules[..k + 1], rows[i], default)
  {
    var rule := rules[k];
    for i := 0 to |rows|
      invariant forall m :: 0 <= m < i ==> labels[m] == RowLabel(rules[..k + 1], rows[m], default)
      invariant forall m :: i <= m < |rows| ==> labels[m] == RowLabel(rules[..k], rows[m], default)
    {
      RowLabelStep(rules, k, rows[i], default);
      if Matches(rule, BoxValue(rows[i].box), rows[i].tipoDePedido) && labels[i] == default {
        labels[i] := rule.nome;
      }
    }
  }

  /** One iteration of the rule loop for one row. */
  lemma RowLabelStep(rules: seq<SetorRule>, k: nat, row: Row, default: string)
    requires k < |rules|
    ensures RowLabel(rules[..k + 1], row, default) ==
            var before := RowLabel(rules[..k], row, default);
            if before == default && Matches(rules[k], BoxValue(row.box), row.tipoDePedido) then rules[k].nome
            else before
  {
    assert rules[..k + 1] == rules[..k] + [rules[k]];
    FirstMatchSnoc(rules[..k], rules[k], BoxValue(row.box), row.tipoDePedido, default);
  }

  /** The rows of the worked example: a heavy-goods delivery at box 560, a
      store-supply order at box 300 and an order of an unknown type. */
  const ExampleRows: seq<Row> := [
    Row(Some(560), "S01 - ENTREGA A CLIENTES"),
    Row(Some(300), "S13 - ABASTECIMENTO DE LOJA BOA"),
    Row(Some(9999), "X")]

  /** The worked example, classified against the sector table with the
      default label. */
  lemma ExampleLabels()
    ensures RowLabel(SetorRules, ExampleRows[0], DefaultSetor) == "Fracionado Pesados"
    ensures RowLabel(SetorRules, ExampleRows[1], DefaultSetor) == "Polo - Abastecimento de Lojas"
    ensures RowLabel(SetorRules, ExampleRows[2], DefaultSetor) == "Outras Saidas"
  {
    ExampleFracionado();
    ExamplePolo();
    ExampleUnknownType();
  }

  /** A heavy-goods delivery at box 560 falls in the first rule's range. */
  lemma ExampleFracionado()
    ensures FirstMatch(SetorRules, 560, "S01 - ENTREGA A CLIENTES", DefaultSetor) == "Fracionado Pesados"
  {
    assert Matches(SetorRules[0], 560, "S01 - ENTREGA A CLIENTES");
  }

  /** A store-supply order at box 300 misses the first two rules and takes the third. */
  lemma ExamplePolo()
    ensures FirstMatch(SetorRules, 300, "S13 - ABASTECIMENTO DE LOJA BOA", DefaultSetor) == "Polo - Abastecimento de Lojas"
  {
    var t := SetorRules;
    assert !Matches(t[0], 300, "S13 - ABASTECIMENTO DE LOJA BOA");
    assert !Matches(t[1], 300, "S13 - ABASTECIMENTO DE LOJA BOA");
    assert Matches(t[2], 300, "S13 - ABASTECIMENTO DE LOJA BOA");
    FirstMatchWins(t, 2, 300, "S13 - ABASTECIMENTO DE LOJA BOA", DefaultSetor);
  }

  /** An unknown order type matches no rule and keeps the default. */
  lemma ExampleUnknownType()
    ensures FirstMatch(SetorRules, 9999, "X", DefaultSetor) == DefaultSetor
  {
    var t := SetorRules;
    assert !Matches(t[0], 9999, "X") && !Matches(t[1], 9999, "X") && !Matches(t[2], 9999, "X");
    assert !Matches(t[3], 9999, "X") && !Matches(t[4], 9999, "X") && !Matches(t[5], 9999, "X");
    assert !Matches(t[6], 9999, "X") && !Matches(t[7], 9999, "X") && !Matches(t[8], 9999, "X");
    assert !Matches(t[9], 9999, "X") && !Matches(t[10], 9999, "X") && !Matches(t[11], 9999, "X");
    NoMatchKeepsDefault(t, 9999, "X", DefaultSetor);
  }

  // ---------------------------------------------------------------------
  // SLA rule

  /** Seconds in a day; timestamps are naive seconds from the epoch. */
  const Day: int := 86400

  /** 05:30 as seconds after midnight. */
  const HalfPastFive: int := 5 * 3600 + 30 * 60

  /** An SLA rule: a box range and the deadline it gives an order time. */
  datatype SlaRule = SlaRule(boxRange: (int, int), deadlineFn: int -> int)

  /** The deadline of the one SLA rule: 05:30 on the calendar day after `d`
      (add a day, truncate to midnight, add 5h30). */
  function NextDayAtHalfPastFive(d: int): (deadline: int)
    ensures deadline / Day == d / Day + 1
    ensures deadline % Day == HalfPastFive
    ensures d < deadline
    ensures HalfPastFive < deadline - d <= Day + HalfPastFive
  {
    ((d + Day) / Day) * Day + HalfPastFive
  }

  /** The only entry of the SLA table, for boxes 413 to 526. */
  const SlaRuleEntregas: SlaRule := SlaRule((413, 526), NextDayAtHalfPastFive)

  /** A later order never gets an earlier deadline, and orders placed on the
      same calendar day share one deadline. */
  lemma DeadlineMonotone(d1: int, d2: int)
    ensures d1 <= d2 ==> SlaRuleEntregas.deadlineFn(d1) <= SlaRuleEntregas.deadlineFn(d2)
    ensures d1 / Day == d2 / Day ==> SlaRuleEntregas.deadlineFn(d1) == SlaRuleEntregas.deadlineFn(d2)
  {
    var a, b := NextDayAtHalfPastFive(d1), NextDayAtHalfPastFive(d2);
    assert a == (a / Day) * Day + HalfPastFive;
    assert b == (b / Day) * Day + HalfPastFive;
  }
}

/** Ingestion and normalisation of the wide export table (main.py:15-55):
    one row per destination country, a quantity column per year labelled
    by the bare year ("2010") and a value column per year labelled with
    the marker ".1" ("2010.1"), reshaped into the tidy table of
    (country, year, kg, US$, litres) records. */
module Ingestion {
  import opened Text
  import opened Sequences

  /** One row of the export file: the destination country and, for every
      column label other than the country's, that column's figure. */
  datatype RawRow = RawRow(pais: string, cells: seq<int>)

  /** The export file once parsed: the column labels other than the
      country's, in header order, and the rows. */
  datatype RawTable = RawTable(labels: seq<string>, rows: seq<RawRow>)

  /** Every row has one figure per column label. */
  predicate WellFormed(t: RawTable)
  {
    forall i :: 0 <= i < |t.rows| ==> |t.rows[i].cells| == |t.labels|
  }

  /** The country column after `str.strip()` (main.py:19); the figures
      are untouched. */
  function StripNames(t: RawTable): (s: RawTable)
    ensures s.labels == t.labels && |s.rows| == |t.rows|
    ensures forall i :: 0 <= i < |t.rows| ==>
              s.rows[i].cells == t.rows[i].cells && s.rows[i].pais == Strip(t.rows[i].pais)
  {
    RawTable(t.labels, seq(|t.rows|, i requires 0 <= i < |t.rows| => RawRow(Strip(t.rows[i].pais), t.rows[i].cells)))
  }

  /** The positions of the labels `keep` selects, in header order: the
      list comprehensions of main.py:22 and main.py:26. */
  function Positions(labels: seq<string>, keep: string -> bool): (cols: seq<nat>)
    ensures forall k :: 0 <= k < |cols| ==> cols[k] < |labels| && keep(labels[cols[k]])
    ensures forall j :: 0 <= j < |labels| && keep(labels[j]) ==> j in cols
    ensures forall k, l :: 0 <= k < l < |cols| ==> cols[k] < cols[l]
  {
    if labels == [] then []
    else
      var n := |labels| - 1;
      Positions(labels[..n], keep) + (if keep(labels[n]) then [n] else [])
  }

  /** The quantity (kg) columns: the labels that are numeric (main.py:22). */
  function QuantityColumns(labels: seq<string>): seq<nat>
  {
    Positions(labels, IsNumeric)
  }

  /** The value (US$) columns: the labels that contain ".1" (main.py:26). */
  function ValueColumns(labels: seq<string>): seq<nat>
  {
    Positions(labels, HasMarker)
  }

  /** No column is in both families, and the value column of a year
      melts under that year's label (main.py:22, 26, 36). */
  lemma {:induction false} ColumnFamilies(labels: seq<string>)
    ensures forall k, l :: 0 <= k < |QuantityColumns(labels)| && 0 <= l < |ValueColumns(labels)|
              ==> QuantityColumns(labels)[k] != ValueColumns(labels)[l]
    ensures forall qc, vc ::
              (0 <= qc < |labels| && 0 <= vc < |labels| && IsNumeric(labels[qc]) && labels[vc] == labels[qc] + ".1")
              ==> vc in ValueColumns(labels) && StripMarker(labels[vc]) == labels[qc]
  {
    forall k, l | 0 <= k < |QuantityColumns(labels)| && 0 <= l < |ValueColumns(labels)|
      ensures QuantityColumns(labels)[k] != ValueColumns(labels)[l]
    {
      ValueLabelOfYear(labels[QuantityColumns(labels)[k]]);
    }
    forall qc, vc | 0 <= qc < |labels| && 0 <= vc < |labels| && IsNumeric(labels[qc])
              && labels[vc] == labels[qc] + ".1"
      ensures vc in ValueColumns(labels) && StripMarker(labels[vc]) == labels[qc]
    {
      ValueLabelOfYear(labels[qc]);
    }
  }

  /** The labels of the columns at `cols`. */
  function LabelsAt(labels: seq<string>, cols: seq<nat>): seq<string>
    requires forall k :: 0 <= k < |cols| ==> cols[k] < |labels|
  {
    seq(|cols|, k requires 0 <= k < |cols| => labels[cols[k]])
  }

  /** The labels of the columns at `cols` with ".1" removed (main.py:36). */
  function YearLabelsAt(labels: seq<string>, cols: seq<nat>): seq<string>
    requires forall k :: 0 <= k < |cols| ==> cols[k] < |labels|
  {
    seq(|cols|, k requires 0 <= k < |cols| => StripMarker(labels[cols[k]]))
  }

  /** A long-form row: country, year label and the figure of one column. */
  datatype Melted = Melted(pais: string, ano: string, amount: int)

  /** Every row has a figure in every column of `cols`. */
  predicate Covers(rows: seq<RawRow>, cols: seq<nat>)
  {
    forall i, k :: 0 <= i < |rows| && 0 <= k < |cols| ==> cols[k] < |rows[i].cells|
  }

  function MeltColumn(rows: seq<RawRow>, col: nat, name: string): seq<Melted>
    requires forall i :: 0 <= i < |rows| ==> col < |rows[i].cells|
  {
    seq(|rows|, i requires 0 <= i < |rows| => Melted(rows[i].pais, name, rows[i].cells[col]))
  }

  /** `melt(id_vars="País", var_name="Ano")` over the columns `cols`,
      named `names` (main.py:30, 37): column after column, each column
      row by row, one long-form row per (row, column). */
  function Melt(rows: seq<RawRow>, cols: seq<nat>, names: seq<string>): (m: seq<Melted>)
    requires |names| == |cols| && Covers(rows, cols)
    ensures |m| == |cols| * |rows|
  {
    if cols == [] then []
    else
      var rest := Melt(rows, cols[1..], names[1..]);
      assert |rest| == (|cols| - 1) * |rows|;
      MeltColumn(rows, cols[0], names[0]) + rest
  }

  /** Every long-form row of the melt is the figure of one row in one
      column of `cols`, under that column's name. */
  lemma {:induction false} MeltSound(rows: seq<RawRow>, cols: seq<nat>, names: seq<string>, x: Melted)
    requires |names| == |cols| && Covers(rows, cols)
    requires x in Melt(rows, cols, names)
    ensures exists i, k :: 0 <= i < |rows| && 0 <= k < |cols|
                           && x == Melted(rows[i].pais, names[k], rows[i].cells[cols[k]])
  {
    var head := MeltColumn(rows, cols[0], names[0]);
    var rest := Melt(rows, cols[1..], names[1..]);
    if x in head {
      var i :| 0 <= i < |rows| && head[i] == x;
      assert x == Melted(rows[i].pais, names[0], rows[i].cells[cols[0]]);
    } else {
      MeltSound(rows, cols[1..], names[1..], x);
      var i, k :| 0 <= i < |rows| && 0 <= k < |cols[1..]|
                  && x == Melted(rows[i].pais, names[1..][k], rows[i].cells[cols[1..][k]]);
      assert x == Melted(rows[i].pais, names[k + 1], rows[i].cells[cols[k + 1]]);
    }
  }

  /** The figure of every row in every column of `cols` is in the melt. */
  lemma {:induction false} MeltComplete(rows: seq<RawRow>, cols: seq<nat>, names: seq<string>, i: nat, k: nat)
    requires |names| == |cols| && Covers(rows, cols)
    requires i < |rows| && k < |cols|
    ensures Melted(rows[i].pais, names[k], rows[i].cells[cols[k]]) in Melt(rows, cols, names)
  {
    var head := MeltColumn(rows, cols[0], names[0]);
    if k == 0 {
      assert head[i] == Melted(rows[i].pais, names[k], rows[i].cells[cols[k]]);
    } else {
      MeltComplete(rows, cols[1..], names[1..], i, k - 1);
      assert names[1..][k - 1] == names[k] && cols[1..][k - 1] == cols[k];
    }
  }

  /** A row of the join: country, year label, kg and US$. */
  datatype Merged = Merged(pais: string, ano: string, kg: int, usd: int)

  /** The rows of `vm` that share `q`'s (country, year) key, joined with `q`. */
  function Matches(q: Melted, vm: seq<Melted>): seq<Merged>
  {
    if vm == [] then []
    else if vm[0].pais == q.pais && vm[0].ano == q.ano
    then [Merged(q.pais, q.ano, q.amount, vm[0].amount)] + Matches(q, vm[1..])
    else Matches(q, vm[1..])
  }

  /** `pd.merge(qm, vm, on=['País', 'Ano'])`, an inner join (main.py:42):
      for each left row in order, every right row with the same key, in
      the right table's order. This is the row order pandas gives an inner
      join from version 2.2 on; earlier versions grouped left rows with
      equal keys together. The two orders differ only when two raw names
      strip to the same country, and then only in row order. */
  function Merge(qm: seq<Melted>, vm: seq<Melted>): seq<Merged>
  {
    if qm == [] then [] else Matches(qm[0], vm) + Merge(qm[1..], vm)
  }

  lemma {:induction false} MatchesSound(q: Melted, vm: seq<Melted>, x: Merged)
    requires x in Matches(q, vm)
    ensures exists v :: v in vm && v.pais == q.pais && v.ano == q.ano
                        && x == Merged(q.pais, q.ano, q.amount, v.amount)
  {
    if vm[0].pais == q.pais && vm[0].ano == q.ano && x == Merged(q.pais, q.ano, q.amount, vm[0].amount) {
      assert vm[0] in vm;
    } else {
      MatchesSound(q, vm[1..], x);
      var v :| v in vm[1..] && v.pais == q.pais && v.ano == q.ano && x == Merged(q.pais, q.ano, q.amount, v.amount);
      assert v in vm;
    }
  }

  lemma {:induction false} MatchesComplete(q: Melted, vm: seq<Melted>, v: Melted)
    requires v in vm && v.pais == q.pais && v.ano == q.ano
    ensures Merged(q.pais, q.ano, q.amount, v.amount) in Matches(q, vm)
  {
    if v != vm[0] {
      assert v in vm[1..];
      MatchesComplete(q, vm[1..], v);
    }
  }

  /** A joined row comes from a quantity row and a value row with the same
      (country, year) key (main.py:42). */
  lemma {:induction false} MergeSound(qm: seq<Melted>, vm: seq<Melted>, x: Merged)
    requires x in Merge(qm, vm)
    ensures exists q, v :: q in qm && v in vm && q.pais == v.pais && q.ano == v.ano
                           && x == Merged(q.pais, q.ano, q.amount, v.amount)
  {
    if x in Matches(qm[0], vm) {
      MatchesSound(qm[0], vm, x);
      assert qm[0] in qm;
    } else {
      MergeSound(qm[1..], vm, x);
      var q, v :| q in qm[1..] && v in vm && q.pais == v.pais && q.ano == v.ano
                  && x == Merged(q.pais, q.ano, q.amount, v.amount);
      assert q in qm;
    }
  }

  /** Every quantity row and value row with the same key are joined
      (main.py:42). */
  lemma {:induction false} MergeComplete(qm: seq<Melted>, vm: seq<Melted>, q: Melted, v: Melted)
    requires q in qm && v in vm && q.pais == v.pais && q.ano == v.ano
    ensures Merged(q.pais, q.ano, q.amount, v.amount) in Merge(qm, vm)
  {
    if q == qm[0] {
      MatchesComplete(q, vm, v);
    } else {
      assert q in qm[1..];
      MergeComplete(qm[1..], vm, q, v);
    }
  }

  /** How many long-form rows carry the key (pais, ano). */
  function KeyCount(ms: seq<Melted>, pais: string, ano: string): nat
  {
    if ms == [] then 0
    else (if ms[0].pais == pais && ms[0].ano == ano then 1 else 0) + KeyCount(ms[1..], pais, ano)
  }

  /** How many joined rows carry the key (pais, ano). */
  function MergedCount(js: seq<Merged>, pais: string, ano: string): nat
  {
    if js == [] then 0
    else (if js[0].pais == pais && js[0].ano == ano then 1 else 0) + MergedCount(js[1..], pais, ano)
  }

  lemma {:induction false} MergedCountAppend(a: seq<Merged>, b: seq<Merged>, pais: string, ano: string)
    ensures MergedCount(a + b, pais, ano) == MergedCount(a, pais, ano) + MergedCount(b, pais, ano)
  {
    if a == [] {
      assert a + b == b;
    } else {
      assert (a + b)[1..] == a[1..] + b;
      MergedCountAppend(a[1..], b, pais, ano);
    }
  }

  lemma {:induction false} MatchesCount(q: Melted, vm: seq<Melted>, pais: string, ano: string)
    ensures MergedCount(Matches(q, vm), pais, ano)
            == if q.pais == pais && q.ano == ano then KeyCount(vm, pais, ano) else 0
  {
    if vm != [] {
      MatchesCount(q, vm[1..], pais, ano);
      if vm[0].pais == q.pais && vm[0].ano == q.ano {
        MergedCountAppend([Merged(q.pais, q.ano, q.amount, vm[0].amount)], Matches(q, vm[1..]), pais, ano);
      }
    }
  }

  /** The join is a product per key: a key that occurs a times among the
      quantity rows and b times among the value rows occurs a * b times in
      the result. Two raw rows whose names strip to the same country thus
      give four joined rows per year, not two (main.py:42). */
  lemma {:induction false} MergeMultiplicity(qm: seq<Melted>, vm: seq<Melted>, pais: string, ano: string)
    ensures MergedCount(Merge(qm, vm), pais, ano) == KeyCount(qm, pais, ano) * KeyCount(vm, pais, ano)
  {
    if qm != [] {
      MergeMultiplicity(qm[1..], vm, pais, ano);
      MergedCountAppend(Matches(qm[0], vm), Merge(qm[1..], vm), pais, ano);
      MatchesCount(qm[0], vm, pais, ano);
      var c := if qm[0].pais == pais && qm[0].ano == ano then 1 else 0;
      assert KeyCount(qm, pais, ano) == c + KeyCount(qm[1..], pais, ano);
      Distribute(c, KeyCount(qm[1..], pais, ano), KeyCount(vm, pais, ano));
    }
  }

  lemma Distribute(c: int, a: int, b: int)
    ensures (c + a) * b == c * b + a * b
  {
  }

  /** A joined row with the year and the figures as numbers. */
  datatype Row = Row(pais: string, ano: int, kg: int, usd: int)

  predicate YearsNumeric(ms: seq<Merged>)
  {
    forall k :: 0 <= k < |ms| ==> IsNumeric(ms[k].ano)
  }

  /** `pd.to_numeric` on the year column (main.py:45). */
  function Typed(ms: seq<Merged>): seq<Row>
    requires YearsNumeric(ms)
  {
    seq(|ms|, k requires 0 <= k < |ms| => Row(ms[k].pais, ParseDigits(ms[k].ano), ms[k].kg, ms[k].usd))
  }

  /** The rows whose kg and US$ are both positive, in order (main.py:48). */
  function KeepPositive(rs: seq<Row>): (r: seq<Row>)
    ensures forall x :: multiset(r)[x] == if x.kg > 0 && x.usd > 0 then multiset(rs)[x] else 0
    ensures Subsequence(r, rs)
  {
    if rs == [] then []
    else
      assert rs == [rs[0]] + rs[1..];
      if rs[0].kg > 0 && rs[0].usd > 0 then [rs[0]] + KeepPositive(rs[1..])
      else KeepPositive(rs[1..])
  }

  /** `df['Ano'].max()` (main.py:51). */
  function MaxYear(rs: seq<Row>): (m: int)
    requires rs != []
    ensures exists k :: 0 <= k < |rs| && rs[k].ano == m
    ensures forall k :: 0 <= k < |rs| ==> rs[k].ano <= m
  {
    if |rs| == 1 then rs[0].ano
    else
      var m := MaxYear(rs[1..]);
      assert forall k :: 1 <= k < |rs| ==> rs[k] == rs[1..][k - 1];
      if rs[0].ano > m then rs[0].ano else m
  }

  /** The rows from year `lo` on, in order. */
  function FromYear(rs: seq<Row>, lo: int): (r: seq<Row>)
    ensures forall x :: multiset(r)[x] == if x.ano >= lo then multiset(rs)[x] else 0
    ensures Subsequence(r, rs)
  {
    if rs == [] then []
    else
      assert rs == [rs[0]] + rs[1..];
      if rs[0].ano >= lo then [rs[0]] + FromYear(rs[1..], lo)
      else FromYear(rs[1..], lo)
  }

  /** The 15-year window (main.py:51-52): the rows from the latest year
      minus 15 on. An empty table stays empty, as comparing with the
      maximum of no rows keeps nothing. */
  function LastYears(rs: seq<Row>): seq<Row>
  {
    if rs == [] then [] else FromYear(rs, MaxYear(rs) - 15)
  }

  /** A row of the tidy table: country, year, kg, US$ and litres. */
  datatype Record = Record(pais: string, ano: int, kg: int, usd: int, litros: int)

  /** The litres column, a copy of kg (main.py:55). */
  function WithLitres(rs: seq<Row>): seq<Record>
  {
    seq(|rs|, k requires 0 <= k < |rs| => Record(rs[k].pais, rs[k].ano, rs[k].kg, rs[k].usd, rs[k].kg))
  }

  /** The quantity family melted (main.py:22-23, 30-32). */
  function QuantityMelt(t: RawTable): seq<Melted>
    requires WellFormed(t)
  {
    var q := QuantityColumns(t.labels);
    Melt(t.rows, q, LabelsAt(t.labels, q))
  }

  /** The value family with ".1" removed from its labels, melted
      (main.py:26-27, 36-39). */
  function ValueMelt(t: RawTable): seq<Melted>
    requires WellFormed(t)
  {
    var v := ValueColumns(t.labels);
    Melt(t.rows, v, YearLabelsAt(t.labels, v))
  }

  /** Every joined year label is a numeric quantity label. */
  lemma MergedYearsAreNumeric(t: RawTable)
    requires WellFormed(t)
    ensures YearsNumeric(Merge(QuantityMelt(t), ValueMelt(t)))
  {
    var ms := Merge(QuantityMelt(t), ValueMelt(t));
    forall k | 0 <= k < |ms|
      ensures IsNumeric(ms[k].ano)
    {
      assert ms[k] in ms;
      JoinSound(t, ms[k]);
    }
  }

  /** The two melted families joined on (country, year), after the names
      are stripped (main.py:19-42). Every joined year label is numeric,
      so the conversion of main.py:45 never fails. */
  function MergedTable(raw: RawTable): (ms: seq<Merged>)
    requires WellFormed(raw)
    ensures YearsNumeric(ms)
  {
    var t := StripNames(raw);
    MergedYearsAreNumeric(t);
    Merge(QuantityMelt(t), ValueMelt(t))
  }

  /** The typed join, kept where kg and US$ are positive (main.py:45-48). */
  function PositiveRows(raw: RawTable): seq<Row>
    requires WellFormed(raw)
  {
    KeepPositive(Typed(MergedTable(raw)))
  }

  /** The whole ingestion (main.py:15-55). */
  function Normalize(raw: RawTable): seq<Record>
    requires WellFormed(raw)
  {
    WithLitres(LastYears(PositiveRows(raw)))
  }

  /** Row `i` has `kg` in the numeric column `qc`, row `j` has `usd` in
      the column `vc` whose label contains ".1" and loses it to become
      the label of `qc`, and both names strip to `pais`. */
  ghost predicate ObservedAt(raw: RawTable, i: int, j: int, qc: int, vc: int, pais: string, kg: int, usd: int)
    requires WellFormed(raw)
  {
    && 0 <= i < |raw.rows| && 0 <= j < |raw.rows|
    && 0 <= qc < |raw.labels| && 0 <= vc < |raw.labels|
    && IsNumeric(raw.labels[qc]) && HasMarker(raw.labels[vc])
    && StripMarker(raw.labels[vc]) == raw.labels[qc]
    && Strip(raw.rows[i].pais) == pais && Strip(raw.rows[j].pais) == pais
    && raw.rows[i].cells[qc] == kg && raw.rows[j].cells[vc] == usd
  }

  /** The raw table shows `kg` and `usd` for country `pais` in the year
      whose label reads as `ano`. */
  ghost predicate Observed(raw: RawTable, pais: string, ano: int, kg: int, usd: int)
    requires WellFormed(raw)
  {
    exists i, j, qc, vc :: ObservedAt(raw, i, j, qc, vc, pais, kg, usd) && ParseDigits(raw.labels[qc]) == ano
  }

  /** Every row of the quantity melt is the figure of a row in a numeric
      column, under that column's label. */
  lemma QuantityMeltSound(t: RawTable, a: Melted)
    requires WellFormed(t) && a in QuantityMelt(t)
    ensures exists i, qc :: 0 <= i < |t.rows| && 0 <= qc < |t.labels| && IsNumeric(t.labels[qc])
                            && a == Melted(t.rows[i].pais, t.labels[qc], t.rows[i].cells[qc])
  {
    var q := QuantityColumns(t.labels);
    MeltSound(t.rows, q, LabelsAt(t.labels, q), a);
  }

  /** Every row of the value melt is the figure of a row in a column whose
      label contains ".1", under that label with ".1" removed. */
  lemma ValueMeltSound(t: RawTable, b: Melted)
    requires WellFormed(t) && b in ValueMelt(t)
    ensures exists j, vc :: 0 <= j < |t.rows| && 0 <= vc < |t.labels| && HasMarker(t.labels[vc])
                            && b == Melted(t.rows[j].pais, StripMarker(t.labels[vc]), t.rows[j].cells[vc])
  {
    var v := ValueColumns(t.labels);
    MeltSound(t.rows, v, YearLabelsAt(t.labels, v), b);
  }

  lemma QuantityMeltComplete(t: RawTable, i: nat, qc: nat)
    requires WellFormed(t) && i < |t.rows| && qc < |t.labels| && IsNumeric(t.labels[qc])
    ensures Melted(t.rows[i].pais, t.labels[qc], t.rows[i].cells[qc]) in QuantityMelt(t)
  {
    var q := QuantityColumns(t.labels);
    var c :| 0 <= c < |q| && q[c] == qc;
    MeltComplete(t.rows, q, LabelsAt(t.labels, q), i, c);
  }

  lemma ValueMeltComplete(t: RawTable, j: nat, vc: nat)
    requires WellFormed(t) && j < |t.rows| && vc < |t.labels| && HasMarker(t.labels[vc])
    ensures Melted(t.rows[j].pais, StripMarker(t.labels[vc]), t.rows[j].cells[vc]) in ValueMelt(t)
  {
    var v := ValueColumns(t.labels);
    var d :| 0 <= d < |v| && v[d] == vc;
    MeltComplete(t.rows, v, YearLabelsAt(t.labels, v), j, d);
  }

  /** A figure of a row in a numeric column joined with a figure of a row
      in a ".1" column that loses the marker to become the same year, for
      two rows with the same name. */
  ghost predicate JoinedAt(t: RawTable, i: int, j: int, qc: int, vc: int, m: Merged)
    requires WellFormed(t)
  {
    && 0 <= i < |t.rows| && 0 <= j < |t.rows|
    && 0 <= qc < |t.labels| && 0 <= vc < |t.labels|
    && IsNumeric(t.labels[qc]) && HasMarker(t.labels[vc])
    && StripMarker(t.labels[vc]) == t.labels[qc] && m.ano == t.labels[qc]
    && t.rows[i].pais == m.pais && t.rows[j].pais == m.pais
    && t.rows[i].cells[qc] == m.kg && t.rows[j].cells[vc] == m.usd
  }

  lemma JoinSound(t: RawTable, m: Merged)
    requires WellFormed(t) && m in Merge(QuantityMelt(t), ValueMelt(t))
    ensures exists i, j, qc, vc :: JoinedAt(t, i, j, qc, vc, m)
  {
    MergeSound(QuantityMelt(t), ValueMelt(t), m);
    var a, b :| a in QuantityMelt(t) && b in ValueMelt(t) && a.pais == b.pais && a.ano == b.ano
                && m == Merged(a.pais, a.ano, a.amount, b.amount);
    QuantityMeltSound(t, a);
    ValueMeltSound(t, b);
    var i, qc :| 0 <= i < |t.rows| && 0 <= qc < |t.labels| && IsNumeric(t.labels[qc])
                 && a == Melted(t.rows[i].pais, t.labels[qc], t.rows[i].cells[qc]);
    var j, vc :| 0 <= j < |t.rows| && 0 <= vc < |t.labels| && HasMarker(t.labels[vc])
                 && b == Melted(t.rows[j].pais, StripMarker(t.labels[vc]), t.rows[j].cells[vc]);
    assert JoinedAt(t, i, j, qc, vc, m);
  }

  /** Every joined row pairs a numeric column's figure with the figure of
      a ".1" column whose label loses the marker to become the same year,
      for two rows whose stripped names agree (main.py:19-42). */
  lemma MergedTableSound(raw: RawTable, m: Merged)
    requires WellFormed(raw) && m in MergedTable(raw)
    ensures exists i, j, qc, vc :: ObservedAt(raw, i, j, qc, vc, m.pais, m.kg, m.usd) && m.ano == raw.labels[qc]
  {
    var t := StripNames(raw);
    JoinSound(t, m);
    var i, j, qc, vc :| JoinedAt(t, i, j, qc, vc, m);
    JoinedIsObserved(raw, i, j, qc, vc, m);
  }

  /** A join witness on the stripped table is an observation on the raw one. */
  lemma JoinedIsObserved(raw: RawTable, i: int, j: int, qc: int, vc: int, m: Merged)
    requires WellFormed(raw) && JoinedAt(StripNames(raw), i, j, qc, vc, m)
    ensures ObservedAt(raw, i, j, qc, vc, m.pais, m.kg, m.usd) && m.ano == raw.labels[qc]
  {
  }

  lemma MergedTableComplete(raw: RawTable, i: int, j: int, qc: int, vc: int, pais: string, kg: int, usd: int)
    requires WellFormed(raw) && ObservedAt(raw, i, j, qc, vc, pais, kg, usd)
    ensures Merged(pais, raw.labels[qc], kg, usd) in MergedTable(raw)
  {
    var t := StripNames(raw);
    QuantityMeltComplete(t, i, qc);
    ValueMeltComplete(t, j, vc);
    MergeComplete(QuantityMelt(t), ValueMelt(t),
                  Melted(t.rows[i].pais, t.labels[qc], t.rows[i].cells[qc]),
                  Melted(t.rows[j].pais, StripMarker(t.labels[vc]), t.rows[j].cells[vc]));
  }

  /** A row is kept exactly when it is in the input with positive kg
      and US$ (main.py:48). */
  lemma KeepPositiveMember(rs: seq<Row>, x: Row)
    ensures x in KeepPositive(rs) <==> x in rs && x.kg > 0 && x.usd > 0
  {
    assert x in KeepPositive(rs) <==> x in multiset(KeepPositive(rs));
    assert x in rs <==> x in multiset(rs);
  }

  /** A row is in the window exactly when it is in the input and its year
      is no older than the latest year minus 15 (main.py:51-52). */
  lemma LastYearsMember(rs: seq<Row>, x: Row)
    ensures x in LastYears(rs) <==> rs != [] && x in rs && x.ano >= MaxYear(rs) - 15
  {
    if rs != [] {
      var w := FromYear(rs, MaxYear(rs) - 15);
      assert x in w <==> x in multiset(w);
      assert x in rs <==> x in multiset(rs);
    }
  }

  /** A record is in the table with litres exactly when its row is in the
      input and its litres equal its kg (main.py:55). */
  lemma WithLitresMember(rs: seq<Row>, x: Record)
    ensures x in WithLitres(rs) <==> Row(x.pais, x.ano, x.kg, x.usd) in rs && x.litros == x.kg
  {
    var row := Row(x.pais, x.ano, x.kg, x.usd);
    if row in rs && x.litros == x.kg {
      var k :| 0 <= k < |rs| && rs[k] == row;
      assert WithLitres(rs)[k] == x;
    }
  }

  /** Every positive row is observed in the raw table (main.py:19-48). */
  lemma PositiveRowsSound(raw: RawTable, x: Row)
    requires WellFormed(raw)
    requires x in PositiveRows(raw)
    ensures x.kg > 0 && x.usd > 0 && Observed(raw, x.pais, x.ano, x.kg, x.usd)
  {
    var ms := MergedTable(raw);
    var ts := Typed(ms);
    KeepPositiveMember(ts, x);
    var k :| 0 <= k < |ts| && ts[k] == x;
    var m := ms[k];
    assert x == Row(m.pais, ParseDigits(m.ano), m.kg, m.usd);
    assert m in ms;
    MergedTableSound(raw, m);
    var i, j, qc, vc :| ObservedAt(raw, i, j, qc, vc, m.pais, m.kg, m.usd) && m.ano == raw.labels[qc];
    ObservedWitness(raw, i, j, qc, vc, x.pais, x.ano, x.kg, x.usd);
  }

  lemma ObservedWitness(raw: RawTable, i: int, j: int, qc: int, vc: int, pais: string, ano: int, kg: int, usd: int)
    requires WellFormed(raw) && ObservedAt(raw, i, j, qc, vc, pais, kg, usd) && ParseDigits(raw.labels[qc]) == ano
    ensures Observed(raw, pais, ano, kg, usd)
  {
  }

  /** Every joined row appears, with its year converted, among the typed rows. */
  lemma TypedMember(ms: seq<Merged>, m: Merged)
    requires YearsNumeric(ms) && m in ms
    ensures IsNumeric(m.ano) && Row(m.pais, ParseDigits(m.ano), m.kg, m.usd) in Typed(ms)
  {
    var k :| 0 <= k < |ms| && ms[k] == m;
    assert Typed(ms)[k] == Row(m.pais, ParseDigits(m.ano), m.kg, m.usd);
  }

  /** Every observed pair of positive figures is a positive row: nothing
      the join matches is lost before the window (main.py:19-48). */
  lemma PositiveRowsComplete(raw: RawTable, x: Row)
    requires WellFormed(raw)
    requires x.kg > 0 && x.usd > 0 && Observed(raw, x.pais, x.ano, x.kg, x.usd)
    ensures x in PositiveRows(raw)
  {
    var ms := MergedTable(raw);
    var i, j, qc, vc :| ObservedAt(raw, i, j, qc, vc, x.pais, x.kg, x.usd) && ParseDigits(raw.labels[qc]) == x.ano;
    MergedTableComplete(raw, i, j, qc, vc, x.pais, x.kg, x.usd);
    TypedMember(ms, Merged(x.pais, raw.labels[qc], x.kg, x.usd));
    KeepPositiveMember(Typed(ms), x);
  }

  /** A record is in the tidy table exactly when its figures are positive
      and observed in the raw table, its litres equal its kg, and its year
      is no older than 15 years before the latest positive year
      (main.py:15-55). */
  lemma NormalizeExact(raw: RawTable, x: Record)
    requires WellFormed(raw)
    ensures x in Normalize(raw) <==>
              && x.kg > 0 && x.usd > 0 && x.litros == x.kg
              && Observed(raw, x.pais, x.ano, x.kg, x.usd)
              && PositiveRows(raw) != [] && x.ano >= MaxYear(PositiveRows(raw)) - 15
  {
    var p := PositiveRows(raw);
    var row := Row(x.pais, x.ano, x.kg, x.usd);
    WithLitresMember(LastYears(p), x);
    LastYearsMember(p, row);
    if row in p {
      PositiveRowsSound(raw, row);
    }
    if x.kg > 0 && x.usd > 0 && Observed(raw, x.pais, x.ano, x.kg, x.usd) {
      PositiveRowsComplete(raw, row);
    }
  }

  /** Every record of the tidy table has positive kg and US$, litres equal
      to kg, and a year between the latest positive year minus 15 and the
      latest positive year (main.py:48, 51-52, 55). */
  lemma NormalizedRecord(raw: RawTable, x: Record)
    requires WellFormed(raw)
    requires x in Normalize(raw)
    ensures x.kg > 0 && x.usd > 0 && x.litros == x.kg
    ensures PositiveRows(raw) != [] && MaxYear(PositiveRows(raw)) - 15 <= x.ano <= MaxYear(PositiveRows(raw))
  {
    var p := PositiveRows(raw);
    var row := Row(x.pais, x.ano, x.kg, x.usd);
    WithLitresMember(LastYears(p), x);
    LastYearsMember(p, row);
    KeepPositiveMember(Typed(MergedTable(raw)), row);
    var n :| 0 <= n < |p| && p[n] == row;
  }

  /** Every country of the tidy table is the stripped name of a raw row,
      with no surrounding whitespace (main.py:19). */
  lemma NormalizedName(raw: RawTable, x: Record)
    requires WellFormed(raw)
    requires x in Normalize(raw)
    ensures x.pais == [] || (!IsSpace(x.pais[0]) && !IsSpace(x.pais[|x.pais| - 1]))
    ensures exists i :: 0 <= i < |raw.rows| && x.pais == Strip(raw.rows[i].pais)
  {
    NormalizeExact(raw, x);
    ObservedName(raw, x.pais, x.ano, x.kg, x.usd);
  }

  /** An observed country is the stripped name of a raw row, so it has no
      surrounding whitespace (main.py:19). */
  lemma ObservedName(raw: RawTable, pais: string, ano: int, kg: int, usd: int)
    requires WellFormed(raw) && Observed(raw, pais, ano, kg, usd)
    ensures pais == [] || (!IsSpace(pais[0]) && !IsSpace(pais[|pais| - 1]))
    ensures exists i :: 0 <= i < |raw.rows| && pais == Strip(raw.rows[i].pais)
  {
    var i, j, qc, vc :| ObservedAt(raw, i, j, qc, vc, pais, kg, usd) && ParseDigits(raw.labels[qc]) == ano;
  }

  /** The latest year of the window is the latest year among the observed
      positive figures (main.py:51). */
  lemma LatestYear(raw: RawTable, x: Row)
    requires WellFormed(raw)
    requires x.kg > 0 && x.usd > 0 && Observed(raw, x.pais, x.ano, x.kg, x.usd)
    ensures PositiveRows(raw) != [] && x.ano <= MaxYear(PositiveRows(raw))
    ensures exists y :: y in PositiveRows(raw) && y.ano == MaxYear(PositiveRows(raw))
                        && y.kg > 0 && y.usd > 0 && Observed(raw, y.pais, y.ano, y.kg, y.usd)
  {
    var p := PositiveRows(raw);
    PositiveRowsComplete(raw, x);
    var n :| 0 <= n < |p| && p[n] == x;
    var k :| 0 <= k < |p| && p[k].ano == MaxYear(p);
    PositiveRowsSound(raw, p[k]);
  }

  /** The tidy table lists its rows in the order of the join (main.py:48, 52). */
  lemma NormalizeKeepsOrder(raw: RawTable)
    requires WellFormed(raw)
    ensures Subsequence(LastYears(PositiveRows(raw)), Typed(MergedTable(raw)))
  {
    var p := PositiveRows(raw);
    if p != [] {
      SubsequenceTransitive(LastYears(p), p, Typed(MergedTable(raw)));
    }
  }
}

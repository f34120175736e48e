/** The filters and the derived views the dashboard draws from the tidy
    table (main.py:76-163): the year window and country filter, the
    country list, the top-10 ranking by value, the percentage shares, the
    combined value/litres ranking, the per-year series and the display
    table. Every view is a function of the tidy table and the selection. */
module Views {
  import opened Text
  import opened Sequences
  import opened Ingestion

  datatype Option<T> = None | Some(value: T)

  /** The entry of the country list that selects every country
      (main.py:77, 82). */
  const Everyone: string := "Todos"

  /** The sidebar selection: a year range and an entry of the country list. */
  datatype Selection = Selection(inicio: int, fim: int, pais: string)

  function PaisOf(x: Record): string { x.pais }
  function AnoOf(x: Record): int { x.ano }
  function UsdOf(x: Record): int { x.usd }
  function LitrosOf(x: Record): int { x.litros }

  /** What the ingestion guarantees of every record: positive kg and US$,
      and litres equal to kg. */
  predicate Tidy(t: seq<Record>)
  {
    forall i :: 0 <= i < |t| ==> t[i].kg > 0 && t[i].usd > 0 && t[i].litros == t[i].kg
  }

  /** The tidy table satisfies `Tidy` (main.py:48, 55). */
  lemma NormalizeIsTidy(raw: RawTable)
    requires WellFormed(raw)
    ensures Tidy(Normalize(raw))
  {
    var t := Normalize(raw);
    forall i | 0 <= i < |t|
      ensures t[i].kg > 0 && t[i].usd > 0 && t[i].litros == t[i].kg
    {
      assert t[i] in t;
      NormalizedRecord(raw, t[i]);
    }
  }

  lemma TidyOfSubset(s: seq<Record>, t: seq<Record>)
    requires Tidy(t) && multiset(s) <= multiset(t)
    ensures Tidy(s)
  {
    forall i | 0 <= i < |s|
      ensures s[i].kg > 0 && s[i].usd > 0 && s[i].litros == s[i].kg
    {
      assert s[i] in multiset(s);
      assert s[i] in multiset(t);
      var j :| 0 <= j < |t| && t[j] == s[i];
    }
  }

  /** The records from year `inicio` to year `fim` inclusive, in order
      (main.py:81, 94, 110). */
  function Window(t: seq<Record>, inicio: int, fim: int): (r: seq<Record>)
    ensures forall x :: multiset(r)[x] == if inicio <= x.ano <= fim then multiset(t)[x] else 0
    ensures Subsequence(r, t)
  {
    if t == [] then []
    else
      assert t == [t[0]] + t[1..];
      if inicio <= t[0].ano <= fim then [t[0]] + Window(t[1..], inicio, fim)
      else Window(t[1..], inicio, fim)
  }

  /** The records the selection shows (main.py:81-83): the year window,
      then, unless the selected entry is "Todos", the selected country. */
  function Filtered(t: seq<Record>, sel: Selection): seq<Record>
  {
    var w := Window(t, sel.inicio, sel.fim);
    if sel.pais != Everyone then Select(w, PaisOf, sel.pais) else w
  }

  /** A record occurs in the filtered table exactly as often as in the
      table when its year is in the range and its country is the selected
      one or "Todos" is selected, and not at all otherwise; the filtered
      table keeps the table's order (main.py:81-83). */
  lemma FilteredExact(t: seq<Record>, sel: Selection, x: Record)
    ensures multiset(Filtered(t, sel))[x]
            == if sel.inicio <= x.ano <= sel.fim && (sel.pais == Everyone || x.pais == sel.pais)
               then multiset(t)[x] else 0
    ensures Subsequence(Filtered(t, sel), t)
  {
    var w := Window(t, sel.inicio, sel.fim);
    if sel.pais != Everyone {
      SubsequenceTransitive(Select(w, PaisOf, sel.pais), w, t);
    }
  }

  function Countries(t: seq<Record>): (ps: seq<string>)
    ensures |ps| == |t| && forall i :: 0 <= i < |t| ==> ps[i] == t[i].pais
  {
    seq(|t|, i requires 0 <= i < |t| => t[i].pais)
  }

  lemma StrLtIsStrictTotalOrder()
    ensures StrictTotalOrder(StrLt)
  {
    forall a: string
      ensures !StrLt(a, a)
    {
      StrLtIrreflexive(a);
    }
    forall a: string, b: string, c: string | StrLt(a, b) && StrLt(b, c)
      ensures StrLt(a, c)
    {
      StrLtTransitive(a, b, c);
    }
    forall a: string, b: string | a != b
      ensures StrLt(a, b) || StrLt(b, a)
    {
      StrLtTotal(a, b);
    }
  }

  /** The countries of `t`, each once, in Python's string order. */
  function CountryKeys(t: seq<Record>): seq<string>
  {
    SortedUnique(Countries(t), StrLt)
  }

  lemma CountryKeysSpec(t: seq<Record>)
    ensures StrictlySorted(CountryKeys(t), StrLt) && Distinct(CountryKeys(t))
    ensures forall p :: p in CountryKeys(t) <==> p in Countries(t)
  {
    StrLtIsStrictTotalOrder();
    SortedUniqueSpec(Countries(t), StrLt);
    var ks := CountryKeys(t);
    forall i, j | 0 <= i < j < |ks|
      ensures ks[i] != ks[j]
    {
      StrLtIrreflexive(ks[i]);
    }
  }

  /** The entries of the country selector (main.py:76-77). */
  function CountryOptions(t: seq<Record>): seq<string>
  {
    [Everyone] + CountryKeys(t)
  }

  /** The selector starts with "Todos", followed by every country of the
      table once, in ascending order, and nothing else (main.py:76-77). */
  lemma CountryOptionsSpec(t: seq<Record>)
    ensures |CountryOptions(t)| >= 1 && CountryOptions(t)[0] == Everyone
    ensures StrictlySorted(CountryOptions(t)[1..], StrLt)
    ensures forall p :: p in CountryOptions(t)[1..] <==> p in Countries(t)
  {
    CountryKeysSpec(t);
    assert CountryOptions(t)[1..] == CountryKeys(t);
  }

  /** The US$ total of country `p` in `w`. */
  function CountryUsd(w: seq<Record>, p: string): int
  {
    Total(Select(w, PaisOf, p), UsdOf)
  }

  /** The litres total of country `p` in `w`. */
  function CountryLitros(w: seq<Record>, p: string): int
  {
    Total(Select(w, PaisOf, p), LitrosOf)
  }

  /** A country and its US$ total: a row of the series at main.py:94. */
  datatype CountryValue = CountryValue(pais: string, usd: int)

  function ValueName(c: CountryValue): string { c.pais }
  function ValueUsd(c: CountryValue): int { c.usd }
  function ValueKey(c: CountryValue): real { c.usd as real }

  /** `groupby("País")["Valor_dolar"].sum()` (main.py:94). */
  function ValueByCountry(w: seq<Record>): seq<CountryValue>
  {
    var ks := CountryKeys(w);
    seq(|ks|, k requires 0 <= k < |ks| => CountryValue(ks[k], CountryUsd(w, ks[k])))
  }

  /** One row per country of `w`, in ascending country order, carrying
      that country's US$ total (main.py:94). */
  lemma ValueByCountrySpec(w: seq<Record>)
    ensures forall i, j :: 0 <= i < j < |ValueByCountry(w)| ==> StrLt(ValueByCountry(w)[i].pais, ValueByCountry(w)[j].pais)
    ensures forall k :: 0 <= k < |ValueByCountry(w)| ==>
              ValueByCountry(w)[k].pais in Countries(w) && ValueByCountry(w)[k].usd == CountryUsd(w, ValueByCountry(w)[k].pais)
    ensures forall p :: p in Countries(w) ==> exists k :: 0 <= k < |ValueByCountry(w)| && ValueByCountry(w)[k].pais == p
  {
    CountryKeysSpec(w);
    ValueByCountrySound(w);
    ValueByCountryComplete(w);
  }

  lemma ValueByCountrySound(w: seq<Record>)
    ensures forall k :: 0 <= k < |ValueByCountry(w)| ==>
              ValueByCountry(w)[k].pais in Countries(w) && ValueByCountry(w)[k].usd == CountryUsd(w, ValueByCountry(w)[k].pais)
  {
    CountryKeysSpec(w);
  }

  lemma ValueByCountryComplete(w: seq<Record>)
    ensures forall p :: p in Countries(w) ==> exists k :: 0 <= k < |ValueByCountry(w)| && ValueByCountry(w)[k].pais == p
  {
    var ks := CountryKeys(w);
    var g := ValueByCountry(w);
    CountryKeysSpec(w);
    forall p | p in Countries(w)
      ensures exists k :: 0 <= k < |g| && g[k].pais == p
    {
      var k :| 0 <= k < |ks| && ks[k] == p;
      assert g[k].pais == p;
    }
  }

  /** The country totals add up to the US$ total of `w` (main.py:94). */
  lemma ValueByCountrySum(w: seq<Record>)
    ensures Total(ValueByCountry(w), ValueUsd) == Total(w, UsdOf)
  {
    var ks := CountryKeys(w);
    var g := ValueByCountry(w);
    CountryKeysSpec(w);
    GroupTotalsSum(ks, g, ValueUsd, w, PaisOf, UsdOf);
    forall x | x in w
      ensures PaisOf(x) in ks
    {
      var i :| 0 <= i < |w| && w[i] == x;
      assert Countries(w)[i] == x.pais;
    }
    GroupsCoverTotal(ks, w, PaisOf, UsdOf);
  }

  function Min(a: int, b: int): int
  {
    if a < b then a else b
  }

  /** How many countries the rankings keep: `head(10)`. */
  const TopCount: nat := 10

  /** The ranking of main.py:94-95: the year window's countries by US$
      total, largest first, the first ten kept. */
  function TopByValue(t: seq<Record>, inicio: int, fim: int): seq<CountryValue>
  {
    var s := SortDesc(ValueByCountry(Window(t, inicio, fim)), ValueKey);
    s[..Min(TopCount, |s|)]
  }

  /** The country totals sorted by US$: non-increasing, each country of
      `w` once, each with its true total. */
  lemma SortedValues(w: seq<Record>)
    ensures var s := SortDesc(ValueByCountry(w), ValueKey);
            && Descending(s, ValueKey)
            && (forall i, j :: 0 <= i < j < |s| ==> ValueName(s[i]) != ValueName(s[j]))
            && (forall k :: 0 <= k < |s| ==> s[k].pais in Countries(w) && s[k].usd == CountryUsd(w, s[k].pais))
            && (forall p :: p in Countries(w) ==> exists q :: 0 <= q < |s| && s[q].pais == p)
  {
    var g := ValueByCountry(w);
    var s := SortDesc(g, ValueKey);
    SortDescSpec(g, ValueKey);
    SortedValuesDistinct(w);
    SortedValuesMembers(w, g, s);
  }

  lemma SortedValuesDistinct(w: seq<Record>)
    ensures var s := SortDesc(ValueByCountry(w), ValueKey);
            forall i, j :: 0 <= i < j < |s| ==> ValueName(s[i]) != ValueName(s[j])
  {
    var g := ValueByCountry(w);
    CountryKeysSpec(w);
    StrLtIsStrictTotalOrder();
    forall i, j | 0 <= i < j < |g|
      ensures ValueName(g[i]) != ValueName(g[j])
    {
      assert StrLt(g[i].pais, g[j].pais);
    }
    SortDescKeepsDistinct(g, ValueKey, ValueName);
  }

  lemma SortedValuesMembers(w: seq<Record>, g: seq<CountryValue>, s: seq<CountryValue>)
    requires g == ValueByCountry(w) && s == SortDesc(g, ValueKey)
    ensures forall k :: 0 <= k < |s| ==> s[k].pais in Countries(w) && s[k].usd == CountryUsd(w, s[k].pais)
    ensures forall p :: p in Countries(w) ==> exists q :: 0 <= q < |s| && s[q].pais == p
  {
    SortedValuesSound(w, g, s);
    SortedValuesComplete(w, g, s);
  }

  lemma SortedValuesSound(w: seq<Record>, g: seq<CountryValue>, s: seq<CountryValue>)
    requires g == ValueByCountry(w) && s == SortDesc(g, ValueKey)
    ensures forall k :: 0 <= k < |s| ==> s[k].pais in Countries(w) && s[k].usd == CountryUsd(w, s[k].pais)
  {
    ValueByCountrySound(w);
    forall k | 0 <= k < |s|
      ensures s[k].pais in Countries(w) && s[k].usd == CountryUsd(w, s[k].pais)
    {
      SortDescSameElements(g, ValueKey, s[k]);
      var m :| 0 <= m < |g| && g[m] == s[k];
    }
  }

  lemma SortedValuesComplete(w: seq<Record>, g: seq<CountryValue>, s: seq<CountryValue>)
    requires g == ValueByCountry(w) && s == SortDesc(g, ValueKey)
    ensures forall p :: p in Countries(w) ==> exists q :: 0 <= q < |s| && s[q].pais == p
  {
    ValueByCountryComplete(w);
    forall p | p in Countries(w)
      ensures exists q :: 0 <= q < |s| && s[q].pais == p
    {
      var m :| 0 <= m < |g| && g[m].pais == p;
      SortDescSameElements(g, ValueKey, g[m]);
      var q :| 0 <= q < |s| && s[q] == g[m];
    }
  }

  /** The ranking holds at most ten countries, each once, in non-increasing
      order of US$ total, each a country of the year window with its true
      total over the window; the country filter plays no part
      (main.py:94-95). */
  lemma TopByValueSpec(t: seq<Record>, inicio: int, fim: int)
    ensures var r := TopByValue(t, inicio, fim);
            var w := Window(t, inicio, fim);
            && |r| <= TopCount
            && (forall i, j :: 0 <= i < j < |r| ==> r[i].pais != r[j].pais)
            && Descending(r, ValueKey)
            && (forall k :: 0 <= k < |r| ==> r[k].pais in Countries(w) && r[k].usd == CountryUsd(w, r[k].pais))
  {
    var w := Window(t, inicio, fim);
    var s := SortDesc(ValueByCountry(w), ValueKey);
    var r := TopByValue(t, inicio, fim);
    SortedValues(w);
    forall i, j | 0 <= i < j < |r|
      ensures r[i].pais != r[j].pais
    {
      assert r[i] == s[i] && r[j] == s[j];
      assert ValueName(s[i]) != ValueName(s[j]);
    }
  }

  /** Every country of the year window is ranked, or else ten countries
      are kept and its total is no greater than the smallest one kept
      (main.py:94-95). */
  lemma TopByValueLeftOut(t: seq<Record>, inicio: int, fim: int, p: string)
    requires p in Countries(Window(t, inicio, fim))
    ensures || (exists k :: 0 <= k < |TopByValue(t, inicio, fim)| && TopByValue(t, inicio, fim)[k].pais == p)
            || (&& |TopByValue(t, inicio, fim)| == TopCount
                && CountryUsd(Window(t, inicio, fim), p) <= TopByValue(t, inicio, fim)[TopCount - 1].usd)
  {
    var w := Window(t, inicio, fim);
    var s := SortDesc(ValueByCountry(w), ValueKey);
    SortedValues(w);
    LeftOutOfSorted(w, s, TopByValue(t, inicio, fim), p);
  }

  /** The left-out property for any non-increasing list `s` of true
      country totals of `w` that names `p`, cut to its first ten. */
  lemma LeftOutOfSorted(w: seq<Record>, s: seq<CountryValue>, r: seq<CountryValue>, p: string)
    requires Descending(s, ValueKey) && r == s[..Min(TopCount, |s|)]
    requires forall k :: 0 <= k < |s| ==> s[k].usd == CountryUsd(w, s[k].pais)
    requires exists q :: 0 <= q < |s| && s[q].pais == p
    ensures || (exists k :: 0 <= k < |r| && r[k].pais == p)
            || (|r| == TopCount && CountryUsd(w, p) <= r[TopCount - 1].usd)
  {
    var q :| 0 <= q < |s| && s[q].pais == p;
    RankedOrBelow(s, r, q);
    if q >= |r| {
      assert s[q].usd == CountryUsd(w, p);
    }
  }

  /** In a non-increasing list, an entry past the first ten is no larger
      than the tenth; an entry among them is kept at its place. */
  lemma RankedOrBelow(s: seq<CountryValue>, r: seq<CountryValue>, q: int)
    requires Descending(s, ValueKey) && 0 <= q < |s| && r == s[..Min(TopCount, |s|)]
    ensures (q < |r| && r[q] == s[q]) || (|r| == TopCount && s[q].usd <= r[TopCount - 1].usd)
  {
    if q >= |r| {
      assert ValueKey(s[TopCount - 1]) >= ValueKey(s[q]);
    }
  }

  /** On a tidy table the kept countries add up to no more than the
      window's US$ total, and to exactly that total when the window has at
      most ten countries (main.py:94-95). */
  lemma TopWithinWindowTotal(t: seq<Record>, inicio: int, fim: int)
    requires Tidy(t)
    ensures 0 <= Total(TopByValue(t, inicio, fim), ValueUsd) <= Total(Window(t, inicio, fim), UsdOf)
    ensures |CountryKeys(Window(t, inicio, fim))| <= TopCount
            ==> Total(TopByValue(t, inicio, fim), ValueUsd) == Total(Window(t, inicio, fim), UsdOf)
  {
    var w := Window(t, inicio, fim);
    WindowSubset(t, inicio, fim);
    TidyOfSubset(w, t);
    RankedTotalBounds(w);
  }

  /** The first ten sorted country totals of a tidy `w` add up to at most
      its US$ total, and to all of it when it has at most ten countries. */
  lemma RankedTotalBounds(w: seq<Record>)
    requires Tidy(w)
    ensures var s := SortDesc(ValueByCountry(w), ValueKey);
            0 <= Total(s[..Min(TopCount, |s|)], ValueUsd) <= Total(w, UsdOf)
    ensures var s := SortDesc(ValueByCountry(w), ValueKey);
            |CountryKeys(w)| <= TopCount ==> Total(s[..Min(TopCount, |s|)], ValueUsd) == Total(w, UsdOf)
  {
    var g := ValueByCountry(w);
    var s := SortDesc(g, ValueKey);
    var n := Min(TopCount, |s|);
    ValueByCountrySum(w);
    TotalSortDesc(g, ValueKey, ValueUsd);
    SortedValuesNonNegative(w);
    TotalPrefix(s, n, ValueUsd);
    SortDescLength(g, ValueKey);
    if |g| <= TopCount {
      assert s[..n] == s;
    }
  }

  /** The sorted country totals of a tidy table are non-negative. */
  lemma SortedValuesNonNegative(w: seq<Record>)
    requires Tidy(w)
    ensures var s := SortDesc(ValueByCountry(w), ValueKey);
            forall k :: 0 <= k < |s| ==> ValueUsd(s[k]) >= 0
  {
    var g := ValueByCountry(w);
    var s := SortDesc(g, ValueKey);
    SortedValuesSound(w, g, s);
    forall k | 0 <= k < |s|
      ensures ValueUsd(s[k]) >= 0
    {
      CountryUsdPositive(w, s[k].pais);
    }
  }

  lemma WindowSubset(t: seq<Record>, inicio: int, fim: int)
    ensures multiset(Window(t, inicio, fim)) <= multiset(t)
  {
  }

  /** In a tidy table every country's US$ total is non-negative, and
      positive when the country occurs. */
  lemma CountryUsdPositive(w: seq<Record>, p: string)
    requires Tidy(w)
    ensures CountryUsd(w, p) >= 0
    ensures p in Countries(w) ==> CountryUsd(w, p) > 0
  {
    var sel := Select(w, PaisOf, p);
    assert multiset(sel) <= multiset(w);
    TidyOfSubset(sel, w);
    TotalPositive(sel);
    if p in Countries(w) {
      var i :| 0 <= i < |w| && Countries(w)[i] == p;
      assert w[i] in multiset(w);
      assert w[i] in multiset(sel);
    }
  }

  lemma {:induction false} TotalPositive(s: seq<Record>)
    requires Tidy(s)
    ensures Total(s, UsdOf) >= 0 && (s != [] ==> Total(s, UsdOf) > 0)
  {
    if s != [] {
      TotalPositive(s[1..]);
    }
  }

  /** A country and its percentage of the filtered US$ total: a row of
      main.py:101-102. */
  datatype Share = Share(pais: string, pct: real)

  function PctKey(x: Share): real { x.pct }

  function ShareOf(c: CountryValue, d: int): Share
    requires d != 0
  {
    Share(c.pais, c.usd as real / d as real * 100.0)
  }

  /** The share view (main.py:101-103): each top-10 country's US$ total
      over the year window, divided by the US$ total of the filtered
      records (country filter applied), times 100, largest first. An
      empty ranking gives no rows; a non-empty ranking over a zero
      denominator gives non-finite percentages, modelled as `None`. */
  function Shares(t: seq<Record>, sel: Selection): Option<seq<Share>>
  {
    var top := TopByValue(t, sel.inicio, sel.fim);
    var d := Total(Filtered(t, sel), UsdOf);
    if top == [] then Some([])
    else if d == 0 then None
    else Some(SortDesc(ShareRows(top, d), PctKey))
  }

  /** `df_total_paises.set_index('País')['Valor_dolar'] / d * 100` (main.py:101). */
  function ShareRows(top: seq<CountryValue>, d: int): seq<Share>
    requires d != 0
  {
    seq(|top|, k requires 0 <= k < |top| => ShareOf(top[k], d))
  }

  /** The sorted shares: one per ranked country, in non-increasing order. */
  lemma SortedShares(top: seq<CountryValue>, d: int)
    requires d != 0
    ensures var v := SortDesc(ShareRows(top, d), PctKey);
            && |v| == |top|
            && Descending(v, PctKey)
            && (forall x :: x in v ==> (exists k :: 0 <= k < |top| && x == ShareOf(top[k], d)))
            && (forall k :: 0 <= k < |top| ==> ShareOf(top[k], d) in v)
  {
    var rows := ShareRows(top, d);
    var v := SortDesc(rows, PctKey);
    SortDescSpec(rows, PctKey);
    assert |v| == |rows| by {
      assert |multiset(v)| == |multiset(rows)|;
    }
    forall x | x in v
      ensures exists k :: 0 <= k < |top| && x == ShareOf(top[k], d)
    {
      assert x in multiset(rows);
      var k :| 0 <= k < |rows| && rows[k] == x;
    }
    forall k | 0 <= k < |top|
      ensures ShareOf(top[k], d) in v
    {
      assert rows[k] in multiset(v);
    }
  }

  /** The percentages are undefined exactly when there is a ranked country
      and the filtered total is zero; a zero total with no ranked country
      gives no rows; otherwise there is one share per ranked country, in
      non-increasing order, each that country's share of the filtered
      total (main.py:101-103). */
  lemma SharesSpec(t: seq<Record>, sel: Selection)
    ensures Shares(t, sel).None? <==> TopByValue(t, sel.inicio, sel.fim) != [] && Total(Filtered(t, sel), UsdOf) == 0
    ensures Shares(t, sel).Some? && Total(Filtered(t, sel), UsdOf) == 0 ==> Shares(t, sel).value == []
    ensures Shares(t, sel).Some? && Total(Filtered(t, sel), UsdOf) != 0 ==>
              var v := Shares(t, sel).value;
              var top := TopByValue(t, sel.inicio, sel.fim);
              var d := Total(Filtered(t, sel), UsdOf);
              && |v| == |top|
              && Descending(v, PctKey)
              && (forall x :: x in v ==> (exists k :: 0 <= k < |top| && x == ShareOf(top[k], d)))
              && (forall k :: 0 <= k < |top| ==> ShareOf(top[k], d) in v)
  {
    var top := TopByValue(t, sel.inicio, sel.fim);
    var d := Total(Filtered(t, sel), UsdOf);
    if d != 0 {
      SortedShares(top, d);
      if top == [] {
        assert ShareRows(top, d) == [];
      }
    }
  }

  /** Each share times the filtered total is 100 times the country's
      window total (main.py:101). */
  lemma ShareEquation(c: CountryValue, d: int)
    requires d != 0
    ensures ShareOf(c, d).pct * (d as real) == c.usd as real * 100.0
  {
    var q := c.usd as real / d as real;
    assert q * (d as real) == c.usd as real;
  }

  lemma ShareMonotone(a: CountryValue, b: CountryValue, d: int)
    requires d > 0 && a.usd >= b.usd
    ensures ShareOf(a, d).pct >= ShareOf(b, d).pct
    ensures a.usd > b.usd ==> ShareOf(a, d).pct > ShareOf(b, d).pct
  {
    var x := a.usd as real / d as real;
    var y := b.usd as real / d as real;
    assert x - y == (a.usd - b.usd) as real / d as real;
  }

  /** On a tidy table the i-th share is the i-th ranked country's share:
      the percentage column lines up with the ranking position by
      position, whatever order `sort_values` gives to equal shares
      (main.py:95, 101-103). */
  lemma SharesFollowRanking(t: seq<Record>, sel: Selection)
    requires Tidy(t)
    ensures Shares(t, sel).Some? && Total(Filtered(t, sel), UsdOf) != 0 ==>
              var v := Shares(t, sel).value;
              var top := TopByValue(t, sel.inicio, sel.fim);
              var d := Total(Filtered(t, sel), UsdOf);
              |v| == |top| && forall k :: 0 <= k < |top| ==> v[k].pct == ShareOf(top[k], d).pct
  {
    var top := TopByValue(t, sel.inicio, sel.fim);
    var d := Total(Filtered(t, sel), UsdOf);
    if top != [] && d != 0 {
      RankedSharesDescending(t, sel);
      var rows := ShareRows(top, d);
      SortDescSpec(rows, PctKey);
      DescendingKeysAgree(SortDesc(rows, PctKey), rows, PctKey);
    }
  }

  /** When no two ranked countries tie on US$, the shares list the
      countries exactly in ranking order (main.py:95, 103). */
  lemma SharesFollowRankingDistinct(t: seq<Record>, sel: Selection)
    requires Tidy(t)
    requires forall i, j :: 0 <= i < j < |TopByValue(t, sel.inicio, sel.fim)| ==>
               TopByValue(t, sel.inicio, sel.fim)[i].usd != TopByValue(t, sel.inicio, sel.fim)[j].usd
    ensures Shares(t, sel).Some? ==>
              var v := Shares(t, sel).value;
              var top := TopByValue(t, sel.inicio, sel.fim);
              |v| == |top| && forall k :: 0 <= k < |top| ==> v[k].pais == top[k].pais
  {
    var top := TopByValue(t, sel.inicio, sel.fim);
    var d := Total(Filtered(t, sel), UsdOf);
    if top != [] && d != 0 {
      RankedSharesDescending(t, sel);
      SortDescOfDescending(ShareRows(top, d), PctKey);
    }
  }

  /** The unsorted share rows of a tidy table follow the ranking's order,
      strictly where the ranked totals differ. */
  lemma RankedSharesDescending(t: seq<Record>, sel: Selection)
    requires Tidy(t)
    requires TopByValue(t, sel.inicio, sel.fim) != [] && Total(Filtered(t, sel), UsdOf) != 0
    ensures var top := TopByValue(t, sel.inicio, sel.fim);
            var rows := ShareRows(top, Total(Filtered(t, sel), UsdOf));
            && Descending(rows, PctKey)
            && ((forall i, j :: 0 <= i < j < |top| ==> top[i].usd != top[j].usd) ==> StrictlyDescending(rows, PctKey))
  {
    var f := Filtered(t, sel);
    FilteredSubset(t, sel);
    TidyOfSubset(f, t);
    TotalPositive(f);
    TopByValueSpec(t, sel.inicio, sel.fim);
    SharesOrdered(TopByValue(t, sel.inicio, sel.fim), Total(f, UsdOf));
  }

  lemma SharesOrdered(top: seq<CountryValue>, d: int)
    requires d > 0 && Descending(top, ValueKey)
    ensures Descending(ShareRows(top, d), PctKey)
    ensures (forall i, j :: 0 <= i < j < |top| ==> top[i].usd != top[j].usd) ==> StrictlyDescending(ShareRows(top, d), PctKey)
  {
    var rows := ShareRows(top, d);
    forall i, j | 0 <= i < j < |rows|
      ensures PctKey(rows[i]) >= PctKey(rows[j])
      ensures top[i].usd != top[j].usd ==> PctKey(rows[i]) > PctKey(rows[j])
    {
      assert ValueKey(top[i]) >= ValueKey(top[j]);
      ShareMonotone(top[i], top[j], d);
    }
  }

  lemma FilteredSubset(t: seq<Record>, sel: Selection)
    ensures multiset(Filtered(t, sel)) <= multiset(t)
  {
    forall x
      ensures multiset(Filtered(t, sel))[x] <= multiset(t)[x]
    {
      FilteredExact(t, sel, x);
    }
  }

  /** With a single country selected, the denominator is that country's
      own window total, so when the country is among the ranked ones its
      share is exactly 100. Every other ranked country keeps a positive
      share of that same denominator, so as soon as two countries are
      ranked the percentages add up to more than 100 (main.py:82-83, 101). */
  lemma SelectedCountryShare(t: seq<Record>, sel: Selection, k: nat)
    requires Tidy(t) && sel.pais != Everyone
    requires k < |TopByValue(t, sel.inicio, sel.fim)| && TopByValue(t, sel.inicio, sel.fim)[k].pais == sel.pais
    ensures Shares(t, sel).Some? && Share(sel.pais, 100.0) in Shares(t, sel).value
    ensures Shares(t, sel).Some? &&
            var v := Shares(t, sel).value;
            var top := TopByValue(t, sel.inicio, sel.fim);
            var d := Total(Filtered(t, sel), UsdOf);
            && d != 0
            && (forall j :: 0 <= j < |top| && j != k ==> ShareOf(top[j], d) in v && ShareOf(top[j], d).pct > 0.0)
            && (|top| >= 2 ==> PctSum(v) > 100.0)
  {
    var top := TopByValue(t, sel.inicio, sel.fim);
    var d := Total(Filtered(t, sel), UsdOf);
    SelectedDenominator(t, sel, k);
    SharesSpec(t, sel);
    WholeShare(top[k], d);
    var v := Shares(t, sel).value;
    RankedUsdPositive(t, sel.inicio, sel.fim);
    forall j | 0 <= j < |top|
      ensures ShareOf(top[j], d).pct > 0.0
    {
      ShareOfPositive(top[j], d);
    }
    if |top| >= 2 {
      SharesArePositive(top, d, v);
      var a :| 0 <= a < |v| && v[a] == Share(sel.pais, 100.0);
      var b := if a == 0 then 1 else 0;
      PctSumAtLeastTwo(v, a, b);
    }
  }

  /** On a tidy table every ranked country has a positive window total. */
  lemma RankedUsdPositive(t: seq<Record>, inicio: int, fim: int)
    requires Tidy(t)
    ensures forall k :: 0 <= k < |TopByValue(t, inicio, fim)| ==> TopByValue(t, inicio, fim)[k].usd > 0
  {
    var w := Window(t, inicio, fim);
    var top := TopByValue(t, inicio, fim);
    TopByValueSpec(t, inicio, fim);
    WindowSubset(t, inicio, fim);
    TidyOfSubset(w, t);
    forall k | 0 <= k < |top|
      ensures top[k].usd > 0
    {
      CountryUsdPositive(w, top[k].pais);
    }
  }

  /** A positive total over a positive denominator is a positive share. */
  lemma ShareOfPositive(c: CountryValue, d: int)
    requires d > 0 && c.usd > 0
    ensures ShareOf(c, d).pct > 0.0
  {
    ShareMonotone(c, CountryValue(c.pais, 0), d);
  }

  /** Shares drawn from positive totals over a positive denominator are
      all positive. */
  lemma SharesArePositive(top: seq<CountryValue>, d: int, v: seq<Share>)
    requires d > 0 && forall k :: 0 <= k < |top| ==> top[k].usd > 0
    requires forall x :: x in v ==> (exists k :: 0 <= k < |top| && x == ShareOf(top[k], d))
    ensures forall i :: 0 <= i < |v| ==> v[i].pct > 0.0
  {
    forall i | 0 <= i < |v|
      ensures v[i].pct > 0.0
    {
      assert v[i] in v;
      var k :| 0 <= k < |top| && v[i] == ShareOf(top[k], d);
      ShareOfPositive(top[k], d);
    }
  }

  /** The sum of a percentage column. */
  function PctSum(v: seq<Share>): real
  {
    if v == [] then 0.0 else v[0].pct + PctSum(v[1..])
  }

  lemma {:induction false} PctSumNonNegative(v: seq<Share>)
    requires forall i :: 0 <= i < |v| ==> v[i].pct >= 0.0
    ensures PctSum(v) >= 0.0
  {
    if v != [] {
      PctSumNonNegative(v[1..]);
    }
  }

  /** With no negative percentage, the column adds up to at least any
      one of its entries. */
  lemma {:induction false} PctSumAtLeastOne(v: seq<Share>, a: int)
    requires 0 <= a < |v|
    requires forall i :: 0 <= i < |v| ==> v[i].pct >= 0.0
    ensures PctSum(v) >= v[a].pct
  {
    if a == 0 {
      PctSumNonNegative(v[1..]);
    } else {
      PctSumAtLeastOne(v[1..], a - 1);
    }
  }

  /** With no negative percentage, the column adds up to at least any
      two of its entries. */
  lemma {:induction false} PctSumAtLeastTwo(v: seq<Share>, a: int, b: int)
    requires 0 <= a < |v| && 0 <= b < |v| && a != b
    requires forall i :: 0 <= i < |v| ==> v[i].pct >= 0.0
    ensures PctSum(v) >= v[a].pct + v[b].pct
  {
    if a == 0 {
      PctSumAtLeastOne(v[1..], b - 1);
    } else if b == 0 {
      PctSumAtLeastOne(v[1..], a - 1);
    } else {
      PctSumAtLeastTwo(v[1..], a - 1, b - 1);
    }
  }

  lemma WholeShare(c: CountryValue, d: int)
    requires d == c.usd && d != 0
    ensures ShareOf(c, d) == Share(c.pais, 100.0)
  {
    assert (d as real) / (d as real) == 1.0;
  }

  /** With one country selected, the filtered US$ total is that country's
      window total (main.py:82-83). */
  lemma SelectedDenominator(t: seq<Record>, sel: Selection, k: nat)
    requires Tidy(t) && sel.pais != Everyone
    requires k < |TopByValue(t, sel.inicio, sel.fim)| && TopByValue(t, sel.inicio, sel.fim)[k].pais == sel.pais
    ensures Total(Filtered(t, sel), UsdOf) == TopByValue(t, sel.inicio, sel.fim)[k].usd > 0
  {
    var w := Window(t, sel.inicio, sel.fim);
    TopByValueSpec(t, sel.inicio, sel.fim);
    WindowSubset(t, sel.inicio, sel.fim);
    TidyOfSubset(w, t);
    CountryUsdPositive(w, sel.pais);
  }

  /** A country with its US$ and litres totals: a row of main.py:110-113. */
  datatype CountryTotal = CountryTotal(pais: string, usd: int, litros: int)

  function TotalKey(c: CountryTotal): real { c.usd as real }
  function ValueOf(c: CountryTotal): CountryValue { CountryValue(c.pais, c.usd) }

  /** `groupby("País").agg(Valor_dolar=sum, Quantidade_litros=sum)`
      (main.py:110-113). */
  function TotalsByCountry(w: seq<Record>): seq<CountryTotal>
  {
    var ks := CountryKeys(w);
    seq(|ks|, k requires 0 <= k < |ks| => CountryTotal(ks[k], CountryUsd(w, ks[k]), CountryLitros(w, ks[k])))
  }

  /** The ranking of main.py:110-116: by US$ total over the year window,
      largest first, the first ten kept, with litres totals alongside. */
  function TopTotals(t: seq<Record>, inicio: int, fim: int): seq<CountryTotal>
  {
    var s := SortDesc(TotalsByCountry(Window(t, inicio, fim)), TotalKey);
    s[..Min(TopCount, |s|)]
  }

  /** The combined ranking keeps the same countries in the same order with
      the same US$ totals as the top-10 ranking (main.py:94-95, 110-116). */
  lemma TopTotalsMatchRanking(t: seq<Record>, inicio: int, fim: int)
    ensures MapSeq(TopTotals(t, inicio, fim), ValueOf) == TopByValue(t, inicio, fim)
  {
    var w := Window(t, inicio, fim);
    var g := TotalsByCountry(w);
    var s := SortDesc(g, TotalKey);
    TotalsProjectToValues(w);
    SortDescMap(g, ValueKey, TotalKey, ValueOf);
    assert SortDesc(ValueByCountry(w), ValueKey) == MapSeq(s, ValueOf);
    MapSeqTake(s, ValueOf, Min(TopCount, |s|));
  }

  /** Dropping the litres from the combined totals gives the value totals. */
  lemma TotalsProjectToValues(w: seq<Record>)
    ensures MapSeq(TotalsByCountry(w), ValueOf) == ValueByCountry(w)
  {
  }

  /** Each country of the combined ranking carries its litres total over
      the year window (main.py:110-113). */
  lemma TopTotalsLitres(t: seq<Record>, inicio: int, fim: int)
    ensures forall k :: 0 <= k < |TopTotals(t, inicio, fim)| ==>
              TopTotals(t, inicio, fim)[k].litros == CountryLitros(Window(t, inicio, fim), TopTotals(t, inicio, fim)[k].pais)
  {
    var w := Window(t, inicio, fim);
    var g := TotalsByCountry(w);
    var s := SortDesc(g, TotalKey);
    forall k | 0 <= k < |s|
      ensures s[k].litros == CountryLitros(w, s[k].pais)
    {
      SortDescSameElements(g, TotalKey, s[k]);
      var m :| 0 <= m < |g| && g[m] == s[k];
    }
  }

  /** A row of the melted ranking: country, metric name and amount
      (main.py:119). */
  datatype MetricRow = MetricRow(pais: string, metrica: string, valor: int)

  const ValueMetric: string := "Valor_dolar"
  const LitresMetric: string := "Quantidade_litros"

  /** `melt(id_vars="País", value_vars=['Valor_dolar', 'Quantidade_litros'])`
      of the combined ranking (main.py:119): every US$ row, then every
      litres row, each in ranking order. */
  function CombinedView(t: seq<Record>, inicio: int, fim: int): seq<MetricRow>
  {
    MeltMetrics(TopTotals(t, inicio, fim))
  }

  function MeltMetrics(top: seq<CountryTotal>): seq<MetricRow>
  {
    seq(|top|, k requires 0 <= k < |top| => MetricRow(top[k].pais, ValueMetric, top[k].usd))
    + seq(|top|, k requires 0 <= k < |top| => MetricRow(top[k].pais, LitresMetric, top[k].litros))
  }

  /** The combined ranking names each country once (main.py:110-116). */
  lemma TopTotalsDistinct(t: seq<Record>, inicio: int, fim: int)
    ensures forall i, j :: 0 <= i < j < |TopTotals(t, inicio, fim)| ==>
              TopTotals(t, inicio, fim)[i].pais != TopTotals(t, inicio, fim)[j].pais
  {
    var top := TopTotals(t, inicio, fim);
    var r := TopByValue(t, inicio, fim);
    TopTotalsMatchRanking(t, inicio, fim);
    TopByValueSpec(t, inicio, fim);
    forall i, j | 0 <= i < j < |top|
      ensures top[i].pais != top[j].pais
    {
      assert r[i].pais == top[i].pais && r[j].pais == top[j].pais;
    }
  }

  /** The US$ row of a ranked country, as the melt spells it. */
  function ValueRow(c: CountryTotal): MetricRow { MetricRow(c.pais, ValueMetric, c.usd) }

  /** The litres row of a ranked country, as the melt spells it. */
  function LitresRow(c: CountryTotal): MetricRow { MetricRow(c.pais, LitresMetric, c.litros) }

  /** The melt holds the US$ row and the litres row of every ranked
      country, twice as many rows as countries (main.py:116-119). */
  lemma MeltMetricsComplete(top: seq<CountryTotal>)
    ensures |MeltMetrics(top)| == 2 * |top|
    ensures forall k :: 0 <= k < |top| ==> ValueRow(top[k]) in MeltMetrics(top) && LitresRow(top[k]) in MeltMetrics(top)
  {
    var r := MeltMetrics(top);
    var n := |top|;
    forall k | 0 <= k < n
      ensures ValueRow(top[k]) in r && LitresRow(top[k]) in r
    {
      assert r[k] == ValueRow(top[k]);
      assert r[n + k] == LitresRow(top[k]);
    }
  }

  /** Every row of the melt is the US$ row or the litres row of a ranked
      country (main.py:119). */
  lemma MeltMetricsSound(top: seq<CountryTotal>, x: MetricRow)
    requires x in MeltMetrics(top)
    ensures exists k :: 0 <= k < |top| && (x == ValueRow(top[k]) || x == LitresRow(top[k]))
  {
    var r := MeltMetrics(top);
    var n := |top|;
    var i :| 0 <= i < |r| && r[i] == x;
    if i < n {
      assert x == ValueRow(top[i]);
    } else {
      assert x == LitresRow(top[i - n]);
    }
  }

  /** When the ranked names are distinct, each is on exactly two rows of
      the melt: its position in the ranking, and that position past the
      US$ rows (main.py:116-119). */
  lemma MeltMetricsPairs(top: seq<CountryTotal>)
    requires forall i, j :: 0 <= i < j < |top| ==> top[i].pais != top[j].pais
    ensures var r := MeltMetrics(top);
            forall k, i :: 0 <= k < |top| && 0 <= i < |r| ==>
              (r[i].pais == top[k].pais <==> i == k || i == |top| + k)
  {
    var r := MeltMetrics(top);
    var n := |top|;
    forall k, i | 0 <= k < n && 0 <= i < |r|
      ensures r[i].pais == top[k].pais <==> i == k || i == n + k
    {
      var j := if i < n then i else i - n;
      assert r[i].pais == top[j].pais;
    }
  }

  /** The combined view has exactly two rows for each of its countries
      (main.py:110-119). */
  lemma CombinedViewPairs(t: seq<Record>, inicio: int, fim: int)
    ensures var top := TopTotals(t, inicio, fim);
            var r := CombinedView(t, inicio, fim);
            && |r| == 2 * |top|
            && forall k, i :: 0 <= k < |top| && 0 <= i < |r| ==>
                 (r[i].pais == top[k].pais <==> i == k || i == |top| + k)
  {
    TopTotalsDistinct(t, inicio, fim);
    MeltMetricsPairs(TopTotals(t, inicio, fim));
    MeltMetricsComplete(TopTotals(t, inicio, fim));
  }

  /** A year with its US$ and litres sums: a row of main.py:139. */
  datatype YearTotal = YearTotal(ano: int, usd: int, litros: int)

  function YearUsd(y: YearTotal): int { y.usd }
  function YearLitros(y: YearTotal): int { y.litros }

  predicate IntLt(a: int, b: int) { a < b }

  function Years(t: seq<Record>): (ys: seq<int>)
    ensures |ys| == |t| && forall i :: 0 <= i < |t| ==> ys[i] == t[i].ano
  {
    seq(|t|, i requires 0 <= i < |t| => t[i].ano)
  }

  /** `groupby('Ano')[['Valor_dolar', 'Quantidade_litros']].sum()` (main.py:139). */
  function ByYear(f: seq<Record>): seq<YearTotal>
  {
    var ys := SortedUnique(Years(f), IntLt);
    seq(|ys|, k requires 0 <= k < |ys| =>
      YearTotal(ys[k], Total(Select(f, AnoOf, ys[k]), UsdOf), Total(Select(f, AnoOf, ys[k]), LitrosOf)))
  }

  /** The per-year series of the filtered records (main.py:139). */
  function YearView(t: seq<Record>, sel: Selection): seq<YearTotal>
  {
    ByYear(Filtered(t, sel))
  }

  /** One row per year of the records, in strictly ascending year order,
      each carrying that year's US$ and litres sums (main.py:139). */
  lemma ByYearSpec(f: seq<Record>)
    ensures forall i, j :: 0 <= i < j < |ByYear(f)| ==> ByYear(f)[i].ano < ByYear(f)[j].ano
    ensures forall k :: 0 <= k < |ByYear(f)| ==>
              && ByYear(f)[k].ano in Years(f)
              && ByYear(f)[k].usd == Total(Select(f, AnoOf, ByYear(f)[k].ano), UsdOf)
              && ByYear(f)[k].litros == Total(Select(f, AnoOf, ByYear(f)[k].ano), LitrosOf)
    ensures forall y :: y in Years(f) ==> exists k :: 0 <= k < |ByYear(f)| && ByYear(f)[k].ano == y
  {
    var ys := SortedUnique(Years(f), IntLt);
    var r := ByYear(f);
    assert StrictTotalOrder(IntLt);
    SortedUniqueSpec(Years(f), IntLt);
    forall y | y in Years(f)
      ensures exists k :: 0 <= k < |r| && r[k].ano == y
    {
      var k :| 0 <= k < |ys| && ys[k] == y;
      assert r[k].ano == y;
    }
  }

  /** The per-year rows add up to the records' US$ and litres totals
      (main.py:139). */
  lemma ByYearSum(f: seq<Record>)
    ensures Total(ByYear(f), YearUsd) == Total(f, UsdOf)
    ensures Total(ByYear(f), YearLitros) == Total(f, LitrosOf)
  {
    var ys := SortedUnique(Years(f), IntLt);
    var r := ByYear(f);
    assert StrictTotalOrder(IntLt);
    SortedUniqueSpec(Years(f), IntLt);
    forall x | x in f
      ensures AnoOf(x) in ys
    {
      var i :| 0 <= i < |f| && f[i] == x;
      assert Years(f)[i] == x.ano;
    }
    assert Distinct(ys);
    GroupTotalsSum(ys, r, YearUsd, f, AnoOf, UsdOf);
    GroupsCoverTotal(ys, f, AnoOf, UsdOf);
    GroupTotalsSum(ys, r, YearLitros, f, AnoOf, LitrosOf);
    GroupsCoverTotal(ys, f, AnoOf, LitrosOf);
  }

  /** A row of the displayed table (main.py:157-163): origin, destination,
      year, litres and US$, in that column order. */
  datatype DisplayRow = DisplayRow(origem: string, destino: string, ano: int, litros: int, usd: int)

  /** The constant origin column (main.py:162). */
  const Origin: string := "Brasil"

  function DisplayTable(t: seq<Record>, sel: Selection): seq<DisplayRow>
  {
    var f := Filtered(t, sel);
    seq(|f|, i requires 0 <= i < |f| => DisplayRow(Origin, f[i].pais, f[i].ano, f[i].litros, f[i].usd))
  }

  /** Reads the records back from displayed rows, taking kg from litres. */
  function FromDisplay(d: seq<DisplayRow>): seq<Record>
  {
    seq(|d|, i requires 0 <= i < |d| => Record(d[i].destino, d[i].ano, d[i].litros, d[i].usd, d[i].litros))
  }

  /** Every displayed row has origin "Brasil", and on a tidy table the
      display loses nothing: the filtered records can be read back from it,
      in order (main.py:157-163). */
  lemma DisplayRoundTrip(t: seq<Record>, sel: Selection)
    requires Tidy(t)
    ensures forall i :: 0 <= i < |DisplayTable(t, sel)| ==> DisplayTable(t, sel)[i].origem == Origin
    ensures FromDisplay(DisplayTable(t, sel)) == Filtered(t, sel)
  {
    FilteredSubset(t, sel);
    TidyOfSubset(Filtered(t, sel), t);
  }

  /** A year range that holds no record gives an empty ranking, no shares,
      an empty combined view, an empty series and an empty table
      (main.py:81-163). */
  lemma EmptyWindow(t: seq<Record>, sel: Selection)
    requires forall i :: 0 <= i < |t| ==> !(sel.inicio <= t[i].ano <= sel.fim)
    ensures TopByValue(t, sel.inicio, sel.fim) == []
    ensures Shares(t, sel) == Some([])
    ensures CombinedView(t, sel.inicio, sel.fim) == []
    ensures YearView(t, sel) == []
    ensures DisplayTable(t, sel) == []
  {
    EmptyRange(t, sel.inicio, sel.fim);
    var w := Window(t, sel.inicio, sel.fim);
    assert Filtered(t, sel) == [] by {
      assert Select(w, PaisOf, sel.pais) == [];
    }
    assert Countries(w) == [] && CountryKeys(w) == [];
    assert ValueByCountry(w) == [] && TotalsByCountry(w) == [];
    assert TopByValue(t, sel.inicio, sel.fim) == [];
    assert TopTotals(t, sel.inicio, sel.fim) == [];
    assert Years([]) == [] && SortedUnique(Years([]), IntLt) == [];
  }

  /** A year range that holds no record of `t` selects nothing. */
  lemma {:induction false} EmptyRange(t: seq<Record>, inicio: int, fim: int)
    requires forall i :: 0 <= i < |t| ==> !(inicio <= t[i].ano <= fim)
    ensures Window(t, inicio, fim) == []
  {
    if t != [] {
      EmptyRange(t[1..], inicio, fim);
    }
  }
}

/** The attendance report of q10.py: every file of the 'datas' directory holds one date
    per line; the lines that parse as '%Y-%m-%d' are collected per file, and each file's
    dates are turned into a bar chart with one bar per distinct date, in date order,
    whose height is the number of attendances on that date. Parsing is a parameter
    `parse` standing for datetime.strptime(line, '%Y-%m-%d').date(): None where strptime
    raises ValueError. */
module Attendance {
  import opened PyStr

  /** datetime.date, compared field by field as Python compares dates. */
  datatype Date = Date(year: int, month: int, day: int)

  predicate Before(a: Date, b: Date)
  {
    a.year < b.year ||
    (a.year == b.year && (a.month < b.month || (a.month == b.month && a.day < b.day)))
  }

  /** Strictly increasing, hence free of duplicates. */
  predicate Increasing(ds: seq<Date>)
  {
    forall i, j :: 0 <= i < j < |ds| ==> Before(ds[i], ds[j])
  }

  // ---------------------------------------------------------------------------
  // gerar_lista_datas
  // ---------------------------------------------------------------------------

  /** The lines of one file that are kept: each stripped, and kept when it parses. */
  function ValidDates(lines: seq<string>, parse: string -> Option<Date>): (kept: seq<string>)
    ensures |kept| <= |lines|
    ensures forall k :: 0 <= k < |kept| ==> parse(kept[k]).Some?
  {
    if lines == [] then []
    else
      var line := Strip(lines[|lines| - 1]);
      ValidDates(lines[..|lines| - 1], parse) + (if parse(line).Some? then [line] else [])
  }

  /** The inner loop: lista_aux gains each stripped line that strptime accepts. */
  method ReadDates(lines: seq<string>, parse: string -> Option<Date>) returns (dates: seq<string>)
    ensures dates == ValidDates(lines, parse)
  {
    dates := [];
    for j := 0 to |lines|
      invariant dates == ValidDates(lines[..j], parse)
    {
      assert lines[..j + 1][..j] == lines[..j];
      var line := Strip(lines[j]);
      if parse(line).Some? {
        dates := dates + [line];
      }
    }
    assert lines[..|lines|] == lines;
  }

  /** The outer loop: one list per file, in listing order, even when it is empty. */
  method GenerateDateLists(files: seq<seq<string>>, parse: string -> Option<Date>)
    returns (lists: seq<seq<string>>)
    ensures |lists| == |files|
    ensures forall i :: 0 <= i < |files| ==> lists[i] == ValidDates(files[i], parse)
  {
    lists := [];
    for i := 0 to |files|
      invariant |lists| == i
      invariant forall k :: 0 <= k < i ==> lists[k] == ValidDates(files[k], parse)
    {
      var dates := ReadDates(files[i], parse);
      lists := lists + [dates];
    }
  }

  /** Line order is kept: the dates of a concatenation are the dates of each part. */
  lemma {:induction false} ValidDatesAppend(a: seq<string>, b: seq<string>, parse: string -> Option<Date>)
    ensures ValidDates(a + b, parse) == ValidDates(a, parse) + ValidDates(b, parse)
    decreases |b|
  {
    if b == [] {
      assert a + b == a;
    } else {
      var init := b[..|b| - 1];
      assert (a + b)[..|a + b| - 1] == a + init;
      ValidDatesAppend(a, init, parse);
    }
  }

  /** One line is kept, stripped, exactly when its stripped text parses. */
  lemma ValidDatesOfLine(line: string, parse: string -> Option<Date>)
    ensures ValidDates([line], parse) == if parse(Strip(line)).Some? then [Strip(line)] else []
  {
    assert [line][..0] == [];
  }

  /** Every kept date is stripped and the stripped text of some line. */
  lemma {:induction false} ValidDatesAreStrippedLines(lines: seq<string>, parse: string -> Option<Date>)
    ensures forall d :: d in ValidDates(lines, parse) ==>
              IsStripped(d) && exists k :: 0 <= k < |lines| && d == Strip(lines[k])
    decreases |lines|
  {
    if lines != [] {
      var init := lines[..|lines| - 1];
      ValidDatesAreStrippedLines(init, parse);
      var last := lines[|lines| - 1];
      StripShape(last);
      forall d | d in ValidDates(lines, parse)
        ensures IsStripped(d) && exists k :: 0 <= k < |lines| && d == Strip(lines[k])
      {
        if d in ValidDates(init, parse) {
          var k :| 0 <= k < |init| && d == Strip(init[k]);
          assert lines[k] == init[k];
        } else {
          assert d == Strip(last);
        }
      }
    }
  }

  // ---------------------------------------------------------------------------
  // visualizar_atendimentos: conversion, counting and sorting
  // ---------------------------------------------------------------------------

  /** [strptime(d).date() for d in lista_datas]: None when some string does not parse. */
  function Convert(dates: seq<string>, parse: string -> Option<Date>): (r: Option<seq<Date>>)
    ensures r.Some? ==> |r.value| == |dates|
    ensures r.Some? ==> forall k :: 0 <= k < |dates| ==> parse(dates[k]) == Some(r.value[k])
    ensures r.None? ==> exists k :: 0 <= k < |dates| && parse(dates[k]).None?
  {
    if dates == [] then Some([])
    else
      var prior := Convert(dates[..|dates| - 1], parse);
      var last := parse(dates[|dates| - 1]);
      if prior.None? then
        var k :| 0 <= k < |dates| - 1 && parse(dates[..|dates| - 1][k]).None?;
        assert parse(dates[k]).None?;
        None
      else if last.None? then None
      else Some(prior.value + [last.value])
  }

  /** Inserting one date into a strictly increasing list, unless it is already there. */
  function Insert(ds: seq<Date>, d: Date): (r: seq<Date>)
    requires Increasing(ds)
    ensures Increasing(r)
    ensures forall e :: e in r <==> e in ds || e == d
  {
    if ds == [] then [d]
    else if d == ds[0] then ds
    else if Before(d, ds[0]) then [d] + ds
    else
      var rest := Insert(ds[1..], d);
      assert forall e :: e in ds[1..] ==> Before(ds[0], e);
      [ds[0]] + rest
  }

  /** sorted(Counter(ds).keys()): the distinct dates of ds in increasing order. */
  function SortedDistinct(ds: seq<Date>): (keys: seq<Date>)
    ensures Increasing(keys)
    ensures forall e :: e in keys <==> e in ds
  {
    if ds == [] then []
    else
      var init := ds[..|ds| - 1];
      assert forall e :: e in ds <==> e in init || e == ds[|ds| - 1];
      Insert(SortedDistinct(init), ds[|ds| - 1])
  }

  /** [freq_datas[d] for d in keys]: how many times each key occurs in ds. */
  function Frequencies(keys: seq<Date>, ds: seq<Date>): (counts: seq<nat>)
    ensures |counts| == |keys|
  {
    if keys == [] then []
    else Frequencies(keys[..|keys| - 1], ds) + [multiset(ds)[keys[|keys| - 1]]]
  }

  function Sum(counts: seq<nat>): nat
  {
    if counts == [] then 0 else Sum(counts[..|counts| - 1]) + counts[|counts| - 1]
  }

  /** np.max of a non-empty list. */
  function Max(counts: seq<nat>): (m: nat)
    requires counts != []
    ensures forall i :: 0 <= i < |counts| ==> counts[i] <= m
    ensures exists i :: 0 <= i < |counts| && counts[i] == m
  {
    if |counts| == 1 then counts[0]
    else
      var prior := Max(counts[..|counts| - 1]);
      assert forall i :: 0 <= i < |counts| - 1 ==> counts[..|counts| - 1][i] == counts[i];
      if counts[|counts| - 1] > prior then counts[|counts| - 1] else prior
  }

  /** np.min of a non-empty list. */
  function Min(counts: seq<nat>): (m: nat)
    requires counts != []
    ensures forall i :: 0 <= i < |counts| ==> m <= counts[i]
    ensures exists i :: 0 <= i < |counts| && counts[i] == m
  {
    if |counts| == 1 then counts[0]
    else
      var prior := Min(counts[..|counts| - 1]);
      assert forall i :: 0 <= i < |counts| - 1 ==> counts[..|counts| - 1][i] == counts[i];
      if counts[|counts| - 1] < prior then counts[|counts| - 1] else prior
  }

  /** The data behind one figure: the bars' dates, their heights, and whether every
      bar gets the same colour (amplitude 0). */
  datatype Chart = Chart(dates: seq<Date>, counts: seq<nat>, sameColour: bool)

  /** The chart of a list of parsed dates. */
  function ChartOf(ds: seq<Date>): Chart
    requires ds != []
  {
    var keys := SortedDistinct(ds);
    assert ds[0] in keys;
    var counts := Frequencies(keys, ds);
    Chart(keys, counts, Max(counts) - Min(counts) == 0)
  }

  /** visualizar_atendimentos: None for an empty list (after printing a message),
      ValueError when a string does not parse, and otherwise the chart of the parsed
      dates. */
  function Visualize(dates: seq<string>, parse: string -> Option<Date>): (r: Result<Option<Chart>>)
    ensures r == Ok(None) <==> dates == []
    ensures r.Err? <==> Convert(dates, parse).None?
  {
    if dates == [] then Ok(None)
    else
      match Convert(dates, parse)
      case None => Err(ValueError("time data does not match format '%Y-%m-%d'"))
      case Some(ds) => Ok(Some(ChartOf(ds)))
  }

  // ---------------------------------------------------------------------------
  // Properties of the chart
  // ---------------------------------------------------------------------------

  lemma {:induction false} FrequenciesAt(keys: seq<Date>, ds: seq<Date>)
    ensures forall i :: 0 <= i < |keys| ==> Frequencies(keys, ds)[i] == multiset(ds)[keys[i]]
    decreases |keys|
  {
    if keys != [] {
      FrequenciesAt(keys[..|keys| - 1], ds);
    }
  }

  /** Adding one date to ds adds one to the total over keys that list it exactly once. */
  lemma {:induction false} SumFrequenciesSnoc(keys: seq<Date>, ds: seq<Date>, d: Date)
    ensures Sum(Frequencies(keys, ds + [d])) == Sum(Frequencies(keys, ds)) + multiset(keys)[d]
    decreases |keys|
  {
    if keys != [] {
      var init := keys[..|keys| - 1];
      SumFrequenciesSnoc(init, ds, d);
      assert keys == init + [keys[|keys| - 1]];
      assert Frequencies(keys, ds + [d])[..|keys| - 1] == Frequencies(init, ds + [d]);
      assert Frequencies(keys, ds)[..|keys| - 1] == Frequencies(init, ds);
    }
  }

  lemma {:induction false} DistinctOnce(keys: seq<Date>, d: Date)
    requires Increasing(keys) && d in keys
    ensures multiset(keys)[d] == 1
    decreases |keys|
  {
    var init := keys[..|keys| - 1];
    var last := keys[|keys| - 1];
    assert keys == init + [last];
    if d == last {
      assert d !in init;
    } else {
      DistinctOnce(init, d);
    }
  }

  /** The counts add up to the number of dates, when every date has exactly one key. */
  lemma {:induction false} SumFrequencies(keys: seq<Date>, ds: seq<Date>)
    requires Increasing(keys) && forall e :: e in ds ==> e in keys
    ensures Sum(Frequencies(keys, ds)) == |ds|
    decreases |ds|
  {
    if ds == [] {
      FrequenciesAt(keys, ds);
      ZeroSum(Frequencies(keys, ds));
    } else {
      var init := ds[..|ds| - 1];
      var d := ds[|ds| - 1];
      assert ds == init + [d];
      SumFrequencies(keys, init);
      SumFrequenciesSnoc(keys, init, d);
      DistinctOnce(keys, d);
    }
  }

  lemma {:induction false} ZeroSum(counts: seq<nat>)
    requires forall i :: 0 <= i < |counts| ==> counts[i] == 0
    ensures Sum(counts) == 0
    decreases |counts|
  {
    if counts != [] {
      ZeroSum(counts[..|counts| - 1]);
    }
  }

  /** lista_freq_datas: one count per bar, each the number of occurrences of that bar's
      date, at least 1, and all of them adding up to the number of dates; the bars are
      in strictly increasing date order and cover exactly the dates that occur. */
  lemma ChartCounts(ds: seq<Date>)
    requires ds != []
    ensures var c := ChartOf(ds);
            Increasing(c.dates) && (forall e :: e in c.dates <==> e in ds) &&
            |c.counts| == |c.dates| &&
            (forall i :: 0 <= i < |c.dates| ==> c.counts[i] == multiset(ds)[c.dates[i]] >= 1) &&
            Sum(c.counts) == |ds|
  {
    var c := ChartOf(ds);
    FrequenciesAt(c.dates, ds);
    SumFrequencies(c.dates, ds);
    forall i | 0 <= i < |c.dates|
      ensures multiset(ds)[c.dates[i]] >= 1
    {
      assert c.dates[i] in ds;
    }
  }

  /** amplitude == 0 exactly when every bar has the same height. */
  lemma AmplitudeZeroIffUniform(counts: seq<nat>)
    requires counts != []
    ensures Max(counts) - Min(counts) == 0 <==>
            forall i, j :: 0 <= i < |counts| && 0 <= j < |counts| ==> counts[i] == counts[j]
  {
    if Max(counts) - Min(counts) == 0 {
      forall i, j | 0 <= i < |counts| && 0 <= j < |counts|
        ensures counts[i] == counts[j]
      {
        assert Min(counts) <= counts[i] <= Max(counts);
        assert Min(counts) <= counts[j] <= Max(counts);
      }
    }
  }

  /** Counting happens on dates, not on strings: two different strings for the same
      date make a single bar of height 2. */
  lemma SameDateOneBar(a: string, b: string, d: Date, parse: string -> Option<Date>)
    requires parse(a) == Some(d) && parse(b) == Some(d)
    ensures Visualize([a, b], parse) == Ok(Some(Chart([d], [2], true)))
  {
    var ds := Convert([a, b], parse).value;
    assert ds == [d, d];
    var keys := SortedDistinct(ds);
    assert keys == [d] by {
      assert ds[..1] == [d];
      assert SortedDistinct(ds[..1]) == [d] by {
        assert ds[..1][..0] == [];
      }
    }
    assert multiset(ds)[d] == 2;
    assert Frequencies(keys, ds) == [2] by {
      assert keys[..0] == [];
    }
  }

  /** The lists that gerar_lista_datas produces never make visualizar_atendimentos
      raise: all of their strings parse. */
  lemma GeneratedListsConvert(lines: seq<string>, parse: string -> Option<Date>)
    ensures Visualize(ValidDates(lines, parse), parse).Ok?
  {
  }

  // ---------------------------------------------------------------------------
  // main
  // ---------------------------------------------------------------------------

  /** visualizar_atendimentos applied to each list in turn. */
  function Figures(lists: seq<seq<string>>, parse: string -> Option<Date>): (figs: seq<Result<Option<Chart>>>)
    ensures |figs| == |lists|
  {
    Map((dates: seq<string>) => Visualize(dates, parse), lists)
  }

  /** The loop of main over the figures: the charts saved so far, or the exception that
      stopped it. An empty list makes visualizar_atendimentos return None, and
      None.savefig raises AttributeError. */
  function SaveAll(figs: seq<Result<Option<Chart>>>): Result<seq<Chart>>
  {
    if figs == [] then Ok([])
    else
      var prior := SaveAll(figs[..|figs| - 1]);
      if prior.Err? then prior
      else
        match figs[|figs| - 1]
        case Err(e) => Err(e)
        case Ok(None) => Err(AttributeError("'NoneType' object has no attribute 'savefig'"))
        case Ok(Some(chart)) => Ok(prior.value + [chart])
  }

  /** main: for each list in turn, build its figure and save it as figs/datas{i+1}. */
  method SaveFigures(lists: seq<seq<string>>, parse: string -> Option<Date>) returns (r: Result<seq<Chart>>)
    ensures r == SaveAll(Figures(lists, parse))
  {
    ghost var figs := Figures(lists, parse);
    var saved: seq<Chart> := [];
    for i := 0 to |lists|
      invariant SaveAll(figs[..i]) == Ok(saved)
    {
      assert figs[..i + 1][..i] == figs[..i];
      assert figs[i] == Visualize(lists[i], parse) by {
        MapAt((dates: seq<string>) => Visualize(dates, parse), lists);
      }
      var fig := Visualize(lists[i], parse);
      if fig.Err? {
        r := Err(fig.error);
        SaveAllStopsAtError(figs, i + 1);
        return;
      }
      if fig.value.None? {
        r := Err(AttributeError("'NoneType' object has no attribute 'savefig'"));
        SaveAllStopsAtError(figs, i + 1);
        return;
      }
      saved := saved + [fig.value.value];
    }
    assert figs[..|lists|] == figs;
    r := Ok(saved);
  }

  lemma {:induction false} SaveAllStopsAtError(figs: seq<Result<Option<Chart>>>, i: int)
    requires 0 <= i <= |figs| && SaveAll(figs[..i]).Err?
    ensures SaveAll(figs) == SaveAll(figs[..i])
    decreases |figs| - i
  {
    if i < |figs| {
      assert figs[..i + 1][..i] == figs[..i];
      SaveAllStopsAtError(figs, i + 1);
    } else {
      assert figs[..i] == figs;
    }
  }

  /** When no figure raised, main saves one chart per figure exactly when every figure
      exists, and otherwise stops with AttributeError. */
  lemma {:induction false} SaveAllOutcome(figs: seq<Result<Option<Chart>>>)
    requires forall i :: 0 <= i < |figs| ==> figs[i].Ok?
    ensures var r := SaveAll(figs);
            (r.Ok? <==> forall i :: 0 <= i < |figs| ==> figs[i].value.Some?) &&
            (r.Ok? ==> |r.value| == |figs|) &&
            (r.Err? ==> r.error.AttributeError?)
    decreases |figs|
  {
    if figs != [] {
      var n := |figs| - 1;
      var init := figs[..n];
      SaveAllOutcome(init);
      if SaveAll(init).Err? {
        var k :| 0 <= k < n && !init[k].value.Some?;
        assert figs[k] == init[k];
      }
    }
  }

  /** Run on the lists of gerar_lista_datas, main saves one figure per file exactly
      when no file is without a valid date, and otherwise stops with AttributeError. */
  lemma MainOutcome(files: seq<seq<string>>, lists: seq<seq<string>>, parse: string -> Option<Date>)
    requires |lists| == |files|
    requires forall i :: 0 <= i < |files| ==> lists[i] == ValidDates(files[i], parse)
    ensures var r := SaveAll(Figures(lists, parse));
            (r.Ok? <==> forall i :: 0 <= i < |lists| ==> lists[i] != []) &&
            (r.Ok? ==> |r.value| == |lists|) &&
            (r.Err? ==> r.error.AttributeError?)
  {
    var figs := Figures(lists, parse);
    MapAt((dates: seq<string>) => Visualize(dates, parse), lists);
    forall i | 0 <= i < |lists|
      ensures figs[i].Ok? && (figs[i].value.Some? <==> lists[i] != [])
    {
      GeneratedListsConvert(files[i], parse);
    }
    SaveAllOutcome(figs);
  }
}

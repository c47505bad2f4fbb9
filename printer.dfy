/** The integer and string logic of the VVPAT printer (printer/Printer.java):
    correcting a raw ballot against the races' labels, picking the printed
    choices, ordering the race title images, and the page-count, height and
    inset arithmetic. Images are known only through their heights. */
module Printing {
  import opened Wrappers
  import opened Numeric
  import opened SExp
  import opened Sequences

  /** A ChoicePair: a label and its status, 1 for selected. */
  datatype ChoicePair = ChoicePair(name: string, status: int)

  // ------------------------------------------------------------ correctBallot

  /** A raw choice that the scan can read: a list of at least an id and a value. */
  predicate WellFormed(raw: seq<SExpr>) {
    forall j :: 0 <= j < |raw| ==> raw[j].Lst? && |raw[j].items| >= 2
  }

  /** What a well-formed raw choice says about label: its value 1 or 0 when
      its id is label and its value is "1" or "0", nothing otherwise. */
  function Mark(c: SExpr, name: string): Option<int>
    requires c.Lst? && |c.items| >= 2
  {
    if ToString(c.items[0]) != name then None
    else if ToString(c.items[1]) == "1" then Some(1)
    else if ToString(c.items[1]) == "0" then Some(0)
    else None
  }

  /** The inner loop of correctBallot for one label: the raw choices are
      scanned in order; a choice that is not a list, or whose id or value
      position is missing when read, throws; the first choice with this id
      and value "1" or "0" ends the scan. */
  function Scan(name: string, raw: seq<SExpr>): Result<Option<int>>
    decreases |raw|
  {
    if |raw| == 0 then Ok(None)
    else
      var c := raw[0];
      if !c.Lst? then Err("ClassCastException")
      else if |c.items| == 0 then Err("IndexOutOfBoundsException")
      else if ToString(c.items[0]) != name then Scan(name, raw[1..])
      else if |c.items| < 2 then Err("IndexOutOfBoundsException")
      else if ToString(c.items[1]) == "1" then Ok(Some(1))
      else if ToString(c.items[1]) == "0" then Ok(Some(0))
      else Scan(name, raw[1..])
  }

  /** A choice the scan throws on when it reaches it: not a list, an empty
      list, or the label alone with no value. */
  predicate ThrowsAt(c: SExpr, name: string) {
    !c.Lst? || |c.items| == 0 || (ToString(c.items[0]) == name && |c.items| < 2)
  }

  /** A choice that ends the scan: the label followed by "1" or "0". */
  predicate EndsAt(c: SExpr, name: string) {
    c.Lst? && |c.items| >= 2 && ToString(c.items[0]) == name &&
    (ToString(c.items[1]) == "1" || ToString(c.items[1]) == "0")
  }

  /** The scan throws exactly when it reaches a choice it throws on before
      any choice that ends it; every other choice, whatever its length, is
      read or skipped. */
  lemma {:induction false} ScanThrows(name: string, raw: seq<SExpr>)
    ensures Scan(name, raw).Err? <==>
      exists j :: 0 <= j < |raw| && ThrowsAt(raw[j], name) &&
        forall k :: 0 <= k < j ==> !ThrowsAt(raw[k], name) && !EndsAt(raw[k], name)
    decreases |raw|
  {
    if |raw| > 0 {
      ScanThrows(name, raw[1..]);
      if Scan(name, raw).Err? && !ThrowsAt(raw[0], name) {
        var j :| 0 <= j < |raw| - 1 && ThrowsAt(raw[1..][j], name) &&
          forall k :: 0 <= k < j ==> !ThrowsAt(raw[1..][k], name) && !EndsAt(raw[1..][k], name);
        assert ThrowsAt(raw[j + 1], name);
        assert forall k :: 0 <= k < j + 1 ==> !ThrowsAt(raw[k], name) && !EndsAt(raw[k], name) by {
          forall k | 0 < k < j + 1
            ensures !ThrowsAt(raw[k], name) && !EndsAt(raw[k], name)
          {
            assert raw[k] == raw[1..][k - 1];
          }
        }
      }
      if !Scan(name, raw).Err? && !ThrowsAt(raw[0], name) && !EndsAt(raw[0], name) {
        forall j | 0 < j < |raw| && ThrowsAt(raw[j], name)
          ensures exists k :: 0 <= k < j && (ThrowsAt(raw[k], name) || EndsAt(raw[k], name))
        {
          assert raw[j] == raw[1..][j - 1];
          var k :| 0 <= k < j - 1 && (ThrowsAt(raw[1..][k], name) || EndsAt(raw[1..][k], name));
          assert raw[k + 1] == raw[1..][k];
        }
      }
    }
  }

  /** On well-formed choices the scan never throws: it finds nothing exactly
      when no choice marks the label, and otherwise the mark of the first
      choice that marks it. */
  lemma {:induction false} ScanFirst(name: string, raw: seq<SExpr>)
    requires WellFormed(raw)
    ensures Scan(name, raw).Ok?
    ensures Scan(name, raw).value.None? <==> forall j :: 0 <= j < |raw| ==> Mark(raw[j], name).None?
    ensures Scan(name, raw).value.Some? ==>
      exists j :: 0 <= j < |raw| && Mark(raw[j], name) == Scan(name, raw).value &&
        forall k :: 0 <= k < j ==> Mark(raw[k], name).None?
    decreases |raw|
  {
    if |raw| > 0 {
      var rest := raw[1..];
      assert forall j :: 0 <= j < |rest| ==> rest[j] == raw[j + 1];
      ScanFirst(name, rest);
      if Mark(raw[0], name).None? {
        assert Scan(name, raw) == Scan(name, rest);
        if Scan(name, rest).value.Some? {
          var j :| 0 <= j < |rest| && Mark(rest[j], name) == Scan(name, rest).value &&
            forall k :: 0 <= k < j ==> Mark(rest[k], name).None?;
          assert Mark(raw[j + 1], name) == Scan(name, raw).value;
          assert forall k :: 0 <= k < j + 1 ==> Mark(raw[k], name).None? by {
            forall k | 0 <= k < j + 1
              ensures Mark(raw[k], name).None?
            {
              if k > 0 {
                assert raw[k] == rest[k - 1];
              }
            }
          }
        } else {
          forall j | 0 <= j < |raw|
            ensures Mark(raw[j], name).None?
          {
            if j > 0 {
              assert raw[j] == rest[j - 1];
            }
          }
        }
      } else {
        assert Scan(name, raw).value == Mark(raw[0], name);
      }
    }
  }

  /** The entries the labels of one race emit, in label order. */
  function LabelEntries(labels: seq<string>, raw: seq<SExpr>): Result<seq<ChoicePair>>
    decreases |labels|
  {
    if |labels| == 0 then Ok([])
    else
      var prev := LabelEntries(labels[..|labels| - 1], raw);
      var name := labels[|labels| - 1];
      if prev.Err? then prev
      else
        match Scan(name, raw)
        case Err(e) => Err(e)
        case Ok(None) => prev
        case Ok(Some(v)) => Ok(prev.value + [ChoicePair(name, v)])
  }

  predicate HasSelected(es: seq<ChoicePair>) {
    exists i :: 0 <= i < |es| && es[i].status == 1
  }

  /** One race of correctBallot: its label entries, then (race[0], 1) when
      none of them is selected ("No Selection"). */
  function RaceEntries(race: seq<string>, raw: seq<SExpr>): Result<seq<ChoicePair>> {
    var es := LabelEntries(race, raw);
    if es.Err? then es
    else if HasSelected(es.value) then es
    else if |race| == 0 then Err("IndexOutOfBoundsException")
    else Ok(es.value + [ChoicePair(race[0], 1)])
  }

  /** correctBallot: the races' entries in race order; the first exception
      ends it. */
  function CorrectSpec(races: seq<seq<string>>, raw: seq<SExpr>): Result<seq<ChoicePair>>
    decreases |races|
  {
    if |races| == 0 then Ok([])
    else
      var prev := CorrectSpec(races[..|races| - 1], raw);
      if prev.Err? then prev
      else
        var es := RaceEntries(races[|races| - 1], raw);
        if es.Err? then es else Ok(prev.value + es.value)
  }

  lemma {:induction false} LabelEntriesErrStays(labels: seq<string>, raw: seq<SExpr>, i: nat)
    requires i <= |labels| && LabelEntries(labels[..i], raw).Err?
    ensures LabelEntries(labels, raw) == LabelEntries(labels[..i], raw)
    decreases |labels|
  {
    if i < |labels| {
      var init := labels[..|labels| - 1];
      assert init[..i] == labels[..i];
      LabelEntriesErrStays(init, raw, i);
    } else {
      assert labels[..i] == labels;
    }
  }

  lemma {:induction false} CorrectErrStays(races: seq<seq<string>>, raw: seq<SExpr>, i: nat)
    requires i <= |races| && CorrectSpec(races[..i], raw).Err?
    ensures CorrectSpec(races, raw) == CorrectSpec(races[..i], raw)
    decreases |races|
  {
    if i < |races| {
      var init := races[..|races| - 1];
      assert init[..i] == races[..i];
      CorrectErrStays(init, raw, i);
    } else {
      assert races[..i] == races;
    }
  }

  /** On well-formed choices, every entry of a label list is (l, v) for one
      of the labels l, with v the scan's mark for l, and every label some
      choice marks has an entry. */
  lemma {:induction false} LabelEntriesMarks(labels: seq<string>, raw: seq<SExpr>)
    requires WellFormed(raw)
    ensures LabelEntries(labels, raw).Ok?
    ensures var es := LabelEntries(labels, raw).value;
      |es| <= |labels| &&
      (forall i :: 0 <= i < |es| ==> es[i].name in labels && Scan(es[i].name, raw) == Ok(Some(es[i].status))) &&
      (forall l :: l in labels && Scan(l, raw).Ok? && Scan(l, raw).value.Some? ==> exists i :: 0 <= i < |es| && es[i].name == l)
    decreases |labels|
  {
    if |labels| > 0 {
      var init := labels[..|labels| - 1];
      var name := labels[|labels| - 1];
      LabelEntriesMarks(init, raw);
      ScanFirst(name, raw);
      assert labels == init + [name];
      var prev := LabelEntries(init, raw).value;
      var es := LabelEntries(labels, raw).value;
      assert forall i :: 0 <= i < |prev| ==> es[i] == prev[i];
      assert forall l :: l in init ==> l in labels;
      forall l | l in labels && Scan(l, raw).Ok? && Scan(l, raw).value.Some?
        ensures exists i :: 0 <= i < |es| && es[i].name == l
      {
        if l == name {
          assert es[|prev|].name == l;
        } else {
          assert l in init;
        }
      }
    }
  }

  /** A race that is corrected without exception has a label, and at least
      one of its entries is selected. */
  lemma RaceSelects(race: seq<string>, raw: seq<SExpr>)
    ensures RaceEntries(race, raw).Ok? ==> |race| > 0 && HasSelected(RaceEntries(race, raw).value)
    ensures LabelEntries(race, raw).Ok? && |race| == 0 ==> RaceEntries(race, raw).Err?
  {
    var es := LabelEntries(race, raw);
    if es.Ok? && !HasSelected(es.value) && |race| > 0 {
      var r := es.value + [ChoicePair(race[0], 1)];
      assert r[|r| - 1].status == 1;
    }
  }

  /** The loop in printCommittedBallot: the labels of the selected entries,
      in order. */
  function Selected(cb: seq<ChoicePair>): seq<string>
    decreases |cb|
  {
    if |cb| == 0 then []
    else Selected(cb[..|cb| - 1]) + (if cb[|cb| - 1].status == 1 then [cb[|cb| - 1].name] else [])
  }

  /** A label is printed exactly when some entry selects it, and no more
      labels are printed than there are entries. */
  lemma {:induction false} SelectedExact(cb: seq<ChoicePair>, l: string)
    ensures |Selected(cb)| <= |cb|
    ensures l in Selected(cb) <==> exists i :: 0 <= i < |cb| && cb[i].name == l && cb[i].status == 1
    decreases |cb|
  {
    if |cb| > 0 {
      var init := cb[..|cb| - 1];
      SelectedExact(init, l);
      assert forall i :: 0 <= i < |init| ==> cb[i] == init[i];
      if exists i :: 0 <= i < |cb| && cb[i].name == l && cb[i].status == 1 {
        var i :| 0 <= i < |cb| && cb[i].name == l && cb[i].status == 1;
        if i < |init| {
          assert init[i].name == l && init[i].status == 1;
        }
      }
    }
  }

  lemma {:induction false} SelectedAppend(a: seq<ChoicePair>, b: seq<ChoicePair>)
    ensures Selected(a + b) == Selected(a) + Selected(b)
    decreases |b|
  {
    if |b| == 0 {
      assert a + b == a;
    } else {
      var b0 := b[..|b| - 1];
      SelectedAppend(a, b0);
      assert (a + b)[..|a + b| - 1] == a + b0;
      assert (a + b)[|a + b| - 1] == b[|b| - 1];
    }
  }

  lemma {:induction false} SelectedNonEmpty(es: seq<ChoicePair>)
    requires HasSelected(es)
    ensures |Selected(es)| >= 1
    decreases |es|
  {
    var init := es[..|es| - 1];
    if es[|es| - 1].status != 1 {
      var i :| 0 <= i < |es| && es[i].status == 1;
      assert init[i] == es[i];
      SelectedNonEmpty(init);
    }
  }

  /** Every race of a ballot corrected without exception contributes at
      least one printed choice. */
  lemma {:induction false} EveryRacePrints(races: seq<seq<string>>, raw: seq<SExpr>)
    requires CorrectSpec(races, raw).Ok?
    ensures |Selected(CorrectSpec(races, raw).value)| >= |races|
    decreases |races|
  {
    if |races| > 0 {
      var init := races[..|races| - 1];
      EveryRacePrints(init, raw);
      var race := races[|races| - 1];
      RaceSelects(race, raw);
      SelectedNonEmpty(RaceEntries(race, raw).value);
      SelectedAppend(CorrectSpec(init, raw).value, RaceEntries(race, raw).value);
    }
  }

  /** The choice loop for one label. */
  method ScanChoices(name: string, raw: seq<SExpr>) returns (r: Result<Option<int>>)
    ensures r == Scan(name, raw)
  {
    var j := 0;
    while j < |raw|
      invariant 0 <= j <= |raw|
      invariant Scan(name, raw) == Scan(name, raw[j..])
    {
      var c := raw[j];
      assert raw[j..][1..] == raw[j + 1..];
      if !c.Lst? {
        return Err("ClassCastException");
      }
      if |c.items| == 0 {
        return Err("IndexOutOfBoundsException");
      }
      if ToString(c.items[0]) == name {
        if |c.items| < 2 {
          return Err("IndexOutOfBoundsException");
        }
        if ToString(c.items[1]) == "1" {
          return Ok(Some(1));
        } else if ToString(c.items[1]) == "0" {
          return Ok(Some(0));
        }
      }
      j := j + 1;
    }
    return Ok(None);
  }

  /** The label loop of one race, with its existingSelectedOption flag. */
  method CorrectRace(race: seq<string>, raw: seq<SExpr>) returns (r: Result<seq<ChoicePair>>)
    ensures r == RaceEntries(race, raw)
  {
    var entries: seq<ChoicePair> := [];
    var existing := false;
    var i := 0;
    while i < |race|
      invariant 0 <= i <= |race|
      invariant LabelEntries(race[..i], raw) == Ok(entries)
      invariant existing <==> HasSelected(entries)
    {
      assert race[..i + 1][..i] == race[..i];
      var s := ScanChoices(race[i], raw);
      if s.Err? {
        LabelEntriesErrStays(race, raw, i + 1);
        return Err(s.error);
      }
      if s.value.Some? {
        if s.value.value == 1 {
          existing := true;
        }
        var e := ChoicePair(race[i], s.value.value);
        assert (entries + [e])[|entries|] == e;
        assert forall k :: 0 <= k < |entries| ==> (entries + [e])[k] == entries[k];
        entries := entries + [e];
      }
      i := i + 1;
    }
    assert race[..i] == race;
    if !existing {
      if |race| == 0 {
        return Err("IndexOutOfBoundsException");
      }
      entries := entries + [ChoicePair(race[0], 1)];
    }
    return Ok(entries);
  }

  /** correctBallot(rawBallot) over the printer's races. */
  method CorrectBallot(races: seq<seq<string>>, raw: seq<SExpr>) returns (r: Result<seq<ChoicePair>>)
    ensures r == CorrectSpec(races, raw)
  {
    var updated: seq<ChoicePair> := [];
    var k := 0;
    while k < |races|
      invariant 0 <= k <= |races|
      invariant CorrectSpec(races[..k], raw) == Ok(updated)
    {
      assert races[..k + 1][..k] == races[..k];
      var es := CorrectRace(races[k], raw);
      if es.Err? {
        CorrectErrStays(races, raw, k + 1);
        return Err(es.error);
      }
      updated := updated + es.value;
      k := k + 1;
    }
    assert races[..k] == races;
    return Ok(updated);
  }

  /** The loop in printCommittedBallot that collects the printed choices. */
  method PrintedChoices(cb: seq<ChoicePair>) returns (choices: seq<string>)
    ensures choices == Selected(cb)
  {
    choices := [];
    var i := 0;
    while i < |cb|
      invariant 0 <= i <= |cb|
      invariant choices == Selected(cb[..i])
    {
      assert cb[..i + 1][..i] == cb[..i];
      if cb[i].status == 1 {
        choices := choices + [cb[i].name];
      }
      i := i + 1;
    }
    assert cb[..i] == cb;
  }

  // ------------------------------------------------------ getRaceNameImagePairs

  /** The numeric ids of the image keys that contain an "L", in key order:
      the text after the key's first character, read by Integer's
      constructor, which throws on anything but an int. */
  function RaceIds(keys: seq<string>): Result<seq<int32>>
    decreases |keys|
  {
    if |keys| == 0 then Ok([])
    else
      var prev := RaceIds(keys[..|keys| - 1]);
      var key := keys[|keys| - 1];
      if prev.Err? || 'L' !in key then prev
      else
        match ParseInt(key[1..])
        case None => Err("NumberFormatException")
        case Some(n) => Ok(prev.value + [n])
  }

  predicate SortedInts(xs: seq<int32>) {
    forall i, j :: 0 <= i < j < |xs| ==> xs[i] <= xs[j]
  }

  /** x inserted before the first larger element. */
  function Insert(x: int32, xs: seq<int32>): seq<int32>
    decreases |xs|
  {
    if |xs| == 0 then [x]
    else if x <= xs[0] then [x] + xs
    else [xs[0]] + Insert(x, xs[1..])
  }

  lemma {:induction false} InsertCounts(x: int32, xs: seq<int32>)
    ensures multiset(Insert(x, xs)) == multiset(xs) + multiset{x}
    decreases |xs|
  {
    if |xs| > 0 && x > xs[0] {
      InsertCounts(x, xs[1..]);
      assert xs == [xs[0]] + xs[1..];
    }
  }

  lemma {:induction false} InsertSorted(x: int32, xs: seq<int32>)
    ensures forall y :: y in Insert(x, xs) ==> y == x || y in xs
    ensures SortedInts(xs) ==> SortedInts(Insert(x, xs))
    decreases |xs|
  {
    if |xs| > 0 && x > xs[0] {
      var rest := Insert(x, xs[1..]);
      InsertSorted(x, xs[1..]);
      var r := [xs[0]] + rest;
      assert forall i :: 0 < i < |r| ==> r[i] == rest[i - 1];
      if SortedInts(xs) {
        forall i | 0 <= i < |rest|
          ensures rest[i] >= xs[0]
        {
          assert rest[i] in rest;
          if rest[i] != x {
            var k :| 0 <= k < |xs[1..]| && xs[1..][k] == rest[i];
            assert xs[k + 1] == rest[i];
          }
        }
      }
    }
  }

  /** Arrays.sort on the Integer ids, as a function: an insertion sort. */
  function Sort(xs: seq<int32>): seq<int32>
    decreases |xs|
  {
    if |xs| == 0 then [] else Insert(xs[|xs| - 1], Sort(xs[..|xs| - 1]))
  }

  /** The sort orders the ids and keeps each as often as it occurs. */
  lemma {:induction false} SortSorts(xs: seq<int32>)
    ensures SortedInts(Sort(xs))
    ensures multiset(Sort(xs)) == multiset(xs)
    decreases |xs|
  {
    if |xs| > 0 {
      SortSorts(xs[..|xs| - 1]);
      InsertSorted(xs[|xs| - 1], Sort(xs[..|xs| - 1]));
      InsertCounts(xs[|xs| - 1], Sort(xs[..|xs| - 1]));
      assert xs == xs[..|xs| - 1] + [xs[|xs| - 1]];
    }
  }

  /** The image key of race title id. */
  function TitleKey(id: int32): string {
    "L" + IntToString(id)
  }

  /** The key "L" + id and the image under it, null when there is none. */
  function TitlePair<Img>(id: int32, images: map<string, Img>): (string, Option<Img>) {
    var key := TitleKey(id);
    (key, if key in images then Some(images[key]) else None)
  }

  /** getRaceNameImagePairs: the race title keys in ascending order of their
      number, with their images. keys is the map's key set in its iteration
      order. */
  function RaceNameImagePairs<Img>(keys: seq<string>, images: map<string, Img>): (r: Result<seq<(string, Option<Img>)>>)
    requires Enumerates(images, keys)
    ensures r.Ok? <==> RaceIds(keys).Ok?
  {
    match RaceIds(keys)
    case Err(e) => Err(e)
    case Ok(ids) =>
      var sorted := Sort(ids);
      Ok(seq(|sorted|, i requires 0 <= i < |sorted| => TitlePair(sorted[i], images)))
  }

  lemma {:induction false} RaceIdsErrStays(keys: seq<string>, i: nat)
    requires i <= |keys| && RaceIds(keys[..i]).Err?
    ensures RaceIds(keys) == RaceIds(keys[..i])
    decreases |keys|
  {
    if i < |keys| {
      var init := keys[..|keys| - 1];
      assert init[..i] == keys[..i];
      RaceIdsErrStays(init, i);
    } else {
      assert keys[..i] == keys;
    }
  }

  /** getRaceNameImagePairs: the id loop, the sort, then the pair loop. */
  method GetRaceNameImagePairs<Img>(keys: seq<string>, images: map<string, Img>)
    returns (r: Result<seq<(string, Option<Img>)>>)
    requires Enumerates(images, keys)
    ensures r == RaceNameImagePairs(keys, images)
  {
    var ids: seq<int32> := [];
    var i := 0;
    while i < |keys|
      invariant 0 <= i <= |keys|
      invariant RaceIds(keys[..i]) == Ok(ids)
    {
      assert keys[..i + 1][..i] == keys[..i];
      var key := keys[i];
      if 'L' in key {
        var n := ParseInt(key[1..]);
        if n.None? {
          RaceIdsErrStays(keys, i + 1);
          return Err("NumberFormatException");
        }
        ids := ids + [n.value];
      }
      i := i + 1;
    }
    assert keys[..i] == keys;
    var sorted := Sort(ids);
    var pairs := TitlePairs(sorted, images);
    assert pairs == seq(|sorted|, j requires 0 <= j < |sorted| => TitlePair(sorted[j], images));
    return Ok(pairs);
  }

  /** The pair loop of getRaceNameImagePairs. */
  method TitlePairs<Img>(sorted: seq<int32>, images: map<string, Img>) returns (pairs: seq<(string, Option<Img>)>)
    ensures |pairs| == |sorted|
    ensures forall j :: 0 <= j < |sorted| ==> pairs[j] == TitlePair(sorted[j], images)
  {
    pairs := [];
    var k := 0;
    while k < |sorted|
      invariant 0 <= k <= |sorted|
      invariant |pairs| == k
      invariant forall j :: 0 <= j < k ==> pairs[j] == TitlePair(sorted[j], images)
    {
      var key := "L" + IntToString(sorted[k]);
      pairs := pairs + [(key, if key in images then Some(images[key]) else None)];
      k := k + 1;
    }
  }

  /** RaceIds keeps one id per key containing an "L", each the number after
      the key's first character. */
  lemma {:induction false} RaceIdsOfKeys(keys: seq<string>)
    requires RaceIds(keys).Ok?
    ensures forall n :: n in RaceIds(keys).value ==>
      exists k :: 0 <= k < |keys| && 'L' in keys[k] && ParseInt(keys[k][1..]) == Some(n)
    ensures |RaceIds(keys).value| <= |keys|
    decreases |keys|
  {
    if |keys| > 0 {
      var init := keys[..|keys| - 1];
      RaceIdsOfKeys(init);
      forall n | n in RaceIds(keys).value
        ensures exists k :: 0 <= k < |keys| && 'L' in keys[k] && ParseInt(keys[k][1..]) == Some(n)
      {
        if n in RaceIds(init).value {
          var k :| 0 <= k < |init| && 'L' in init[k] && ParseInt(init[k][1..]) == Some(n);
          assert keys[k] == init[k];
        } else {
          assert 'L' in keys[|keys| - 1] && ParseInt(keys[|keys| - 1][1..]) == Some(n);
        }
      }
    }
  }

  /** The pairs hold the ids' keys in ascending numeric order, one per id
      (a duplicate number repeated), each with the image stored under it. */
  lemma RaceNamePairsSorted<Img>(keys: seq<string>, images: map<string, Img>)
    requires Enumerates(images, keys) && RaceIds(keys).Ok?
    ensures var ps := RaceNameImagePairs(keys, images).value;
      var sorted := Sort(RaceIds(keys).value);
      SortedInts(sorted) && multiset(sorted) == multiset(RaceIds(keys).value) && |ps| == |sorted| &&
      forall i :: 0 <= i < |ps| ==> ps[i].0 == TitleKey(sorted[i]) && ps[i] == TitlePair(sorted[i], images)
  {
    SortSorts(RaceIds(keys).value);
  }

  /** A title key written the canonical way, "L" and the decimal id, keeps its
      id, so its pair carries that very key. */
  lemma CanonicalTitleKey(n: int32)
    ensures 'L' in TitleKey(n)
    ensures ParseInt(TitleKey(n)[1..]) == Some(n)
  {
    assert TitleKey(n)[0] == 'L';
    assert TitleKey(n)[1..] == IntToString(n);
    ParseIntOfInt32(n);
  }

  // ------------------------------------------------------------- arithmetic

  /** Printable.NO_SUCH_PAGE or PAGE_EXISTS. */
  datatype PageStatus = PageExists | NoSuchPage

  /** The page count of print(): totalSize / imageableHeight in Java int
      arithmetic, one more when it does not divide; a zero height divides by
      zero. */
  function NumPages(totalSize: int32, height: int32): Result<int32> {
    if height == 0 then Err("ArithmeticException")
    else
      var n := Wrap32(JavaDiv(totalSize, height));
      Ok(if JavaRem(totalSize, height) != 0 then Wrap32(n + 1) else n)
  }

  /** Integer.MIN_VALUE / -1 overflows back to Integer.MIN_VALUE with no
      remainder, so print() then answers NO_SUCH_PAGE for every page. */
  lemma NumPagesOverflow(pageIndex: int32)
    ensures NumPages(IntMin, -1) == Ok(IntMin)
    ensures PrintPage(IntMin, -1, pageIndex) == Ok(NoSuchPage)
  {
    assert JavaDiv(IntMin, -1) == 0x8000_0000;
    assert JavaRem(IntMin, -1) == 0;
    assert Wrap32(0x8000_0000) == IntMin;
  }

  /** A quotient by a positive divisor is at most the dividend, and strictly
      less when the division leaves a remainder. */
  lemma QuotientBound(t: int, h: int)
    requires t >= 0 && h > 0
    ensures 0 <= t / h <= t
    ensures t % h != 0 ==> t / h + 1 <= t
  {
    QuotientRemainderBound(t, h, t / h, t % h);
  }

  lemma QuotientRemainderBound(t: int, h: int, q: int, r: int)
    requires t == q * h + r && 0 <= r < h && q >= 0
    ensures q <= t && (r != 0 ==> q + 1 <= t)
  {
    NonNegProduct(q, h - 1);
    assert q * h == q + q * (h - 1);
    if r != 0 {
      NonNegProduct(q, h - 2);
      assert q * h == 2 * q + q * (h - 2);
    }
  }

  lemma NonNegProduct(a: int, b: int)
    requires a >= 0 && b >= 0
    ensures a * b >= 0
  {
  }

  /** For a positive height and a non-negative total, the page count is the
      least number of pages whose heights cover the total. */
  lemma NumPagesCeil(totalSize: int32, height: int32)
    requires totalSize >= 0 && height > 0
    ensures NumPages(totalSize, height).Ok?
    ensures var n := NumPages(totalSize, height).value;
      n >= 0 && n * height >= totalSize && (n == 0 || (n - 1) * height < totalSize)
  {
    var q := totalSize / height;
    var r := totalSize % height;
    assert totalSize == q * height + r && 0 <= r < height;
    assert JavaDiv(totalSize, height) == q;
    assert JavaRem(totalSize, height) == r;
    QuotientBound(totalSize, height);
    assert NumPages(totalSize, height).value == q + (if r != 0 then 1 else 0);
    if r != 0 {
      assert (q + 1) * height == q * height + height;
    } else if q > 0 {
      assert (q - 1) * height == q * height - height;
    }
  }

  /** The page-count test at the head of print(): the division by a zero
      page height throws, and an index at or past the page count answers
      NO_SUCH_PAGE. What print() does for an existing page is not part of
      this function. */
  function PrintPage(totalSize: int32, height: int32, pageIndex: int32): (r: Result<PageStatus>)
    ensures r.Ok? <==> height != 0
    ensures r.Ok? ==> (r.value == NoSuchPage <==> pageIndex >= NumPages(totalSize, height).value)
  {
    match NumPages(totalSize, height)
    case Err(e) => Err(e)
    case Ok(n) => Ok(if pageIndex >= n then NoSuchPage else PageExists)
  }

  /** totalSize: the heights of the printed choices' images summed in Java
      int arithmetic; a choice without an image dereferences null. */
  function TotalSize(choices: seq<string>, heights: map<string, int32>): Result<int32>
    decreases |choices|
  {
    if |choices| == 0 then Ok(0)
    else
      var prev := TotalSize(choices[..|choices| - 1], heights);
      var c := choices[|choices| - 1];
      if prev.Err? then prev
      else if c !in heights then Err("NullPointerException")
      else Ok(Wrap32(prev.value + heights[c]))
  }

  lemma {:induction false} TotalSizeErrStays(choices: seq<string>, heights: map<string, int32>, i: nat)
    requires i <= |choices| && TotalSize(choices[..i], heights).Err?
    ensures TotalSize(choices, heights) == TotalSize(choices[..i], heights)
    decreases |choices|
  {
    if i < |choices| {
      var init := choices[..|choices| - 1];
      assert init[..i] == choices[..i];
      TotalSizeErrStays(init, heights, i);
    } else {
      assert choices[..i] == choices;
    }
  }

  /** The sum of the heights, exactly. */
  function HeightSum(choices: seq<string>, heights: map<string, int32>): int
    requires forall c :: c in choices ==> c in heights
    decreases |choices|
  {
    if |choices| == 0 then 0 else HeightSum(choices[..|choices| - 1], heights) + heights[choices[|choices| - 1]]
  }

  /** totalSize is an error exactly when a choice has no image; it is the
      exact sum of the heights when those are non-negative and their sum fits
      an int. */
  lemma {:induction false} TotalSizeSum(choices: seq<string>, heights: map<string, int32>)
    ensures TotalSize(choices, heights).Ok? <==> forall c :: c in choices ==> c in heights
    ensures (TotalSize(choices, heights).Ok? && (forall c :: c in heights ==> heights[c] >= 0) &&
             HeightSum(choices, heights) <= IntMax) ==>
      TotalSize(choices, heights).value == HeightSum(choices, heights)
    decreases |choices|
  {
    if |choices| > 0 {
      var init := choices[..|choices| - 1];
      TotalSizeSum(init, heights);
      assert choices == init + [choices[|choices| - 1]];
      assert forall c :: c in choices <==> c in init || c == choices[|choices| - 1];
      if TotalSize(choices, heights).Ok? && (forall c :: c in heights ==> heights[c] >= 0) {
        assert HeightSum(init, heights) <= HeightSum(choices, heights);
      }
    }
  }

  /** The loop in printCommittedBallot that sums the image heights. */
  method SumHeights(choices: seq<string>, heights: map<string, int32>) returns (r: Result<int32>)
    ensures r == TotalSize(choices, heights)
  {
    var total: int32 := 0;
    var i := 0;
    while i < |choices|
      invariant 0 <= i <= |choices|
      invariant TotalSize(choices[..i], heights) == Ok(total)
    {
      assert choices[..i + 1][..i] == choices[..i];
      if choices[i] !in heights {
        TotalSizeErrStays(choices, heights, i + 1);
        return Err("NullPointerException");
      }
      total := Wrap32(total + heights[choices[i]]);
      i := i + 1;
    }
    assert choices[..i] == choices;
    return Ok(total);
  }

  /** The VVPAT inset in printOnVVPAT: (paper - printable) / 2 in int
      arithmetic. */
  function Inset(paper: int32, printable: int32): (r: int32)
    ensures 0 <= printable <= paper ==> 0 <= 2 * r <= paper - printable <= 2 * r + 1
  {
    JavaDiv(Wrap32(paper - printable), 2)
  }

  /** The column width of two-column printing: half the printable width. */
  function ColumnWidth(printable: int32): (r: int32)
    ensures printable >= 0 ==> 0 <= 2 * r <= printable <= 2 * r + 1
  {
    JavaDiv(printable, 2)
  }

  /** The default TPS800 page gives insets of 5 points on both axes. */
  lemma DefaultInsets()
    ensures Inset(249, 239) == 5 && Inset(322, 311) == 5
  {
  }
}

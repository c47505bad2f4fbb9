/** The data logic of the election results window
    (supervisor/view/TallyResultsFrame.java): recognising race images in a
    ballot archive, naming their race, ordering result rows, the widest and
    tallest image, and grouping race ids under their title image. Java's
    HashMap iteration order is left open: loops over a map's key set pick
    their entries in any order, and where the result depends on that order
    (which race id names a title group) the order is a parameter listing
    each key once. */
module TallyResults {
  import opened Wrappers
  import opened Numeric
  import opened JavaStrings
  import opened Sequences

  const RacePrefix := "media/vvpat/B"
  const RaceSuffix := ".png"
  const SelectedMark := "_selected_"

  /** isRaceImage(entryName, langs): langs None is a null list; an empty
      list makes langs.get(0) throw. */
  function IsRaceImage(entryName: string, langs: Option<seq<string>>): (r: Result<bool>)
    ensures r == Ok(true) <==>
      StartsWith(entryName, RacePrefix) && EndsWith(entryName, RaceSuffix) && Contains(entryName, SelectedMark) &&
      (langs.Some? ==> |langs.value| > 0 && Contains(entryName, langs.value[0]))
    ensures r.Err? <==>
      StartsWith(entryName, RacePrefix) && EndsWith(entryName, RaceSuffix) && Contains(entryName, SelectedMark) &&
      langs == Some([])
  {
    if !StartsWith(entryName, RacePrefix) then Ok(false)
    else if !EndsWith(entryName, RaceSuffix) then Ok(false)
    else if IndexOf(entryName, SelectedMark) == -1 then Ok(false)
    else if langs.Some? then
      if |langs.value| == 0 then Err("IndexOutOfBoundsException")
      else if IndexOf(entryName, langs.value[0]) == -1 then Ok(false)
      else Ok(true)
    else Ok(true)
  }

  /** getRace(name): the text from the first 'B' up to, not including, the
      first '_'; substring throws when either is missing or the '_' comes
      first. */
  function GetRace(name: string): (r: Result<string>)
    ensures r.Ok? <==> 'B' in name && '_' in name && IndexOfChar(name, 'B') <= IndexOfChar(name, '_')
    ensures r.Ok? ==>
      var i := IndexOfChar(name, 'B');
      0 <= i && i + |r.value| < |name| && 'B' !in name[..i] && name[i] == 'B' &&
      r.value == name[i..i + |r.value|] && name[i + |r.value|] == '_' && '_' !in name[..i + |r.value|]
  {
    var start := IndexOfChar(name, 'B');
    var end := IndexOfChar(name, '_');
    if start < 0 || end < 0 || start > end then Err("StringIndexOutOfBoundsException")
    else
      assert '_' !in name[..start] by {
        assert name[..start] == name[..end][..start];
      }
      Ok(name[start..end])
  }

  /** Every race image names a race: a non-empty id starting with 'B'. The
      'B' closing the prefix is the first one. */
  lemma RaceImageHasRace(entryName: string, langs: Option<seq<string>>)
    requires IsRaceImage(entryName, langs) == Ok(true)
    ensures GetRace(entryName).Ok?
    ensures |GetRace(entryName).value| >= 1 && GetRace(entryName).value[0] == 'B'
  {
    var p := entryName[..|RacePrefix|];
    assert p == RacePrefix;
    assert 'B' !in entryName[..12] && entryName[12] == 'B' by {
      assert entryName[..12] == RacePrefix[..12];
      assert forall i :: 0 <= i < 12 ==> RacePrefix[i] != 'B';
    }
    assert IndexOfChar(entryName, 'B') == 12 by {
      assert entryName[..12] == "media/vvpat/";
    }
    var j := IndexOf(entryName, SelectedMark);
    assert Contains(entryName, SelectedMark);
    assert OccursAt(entryName, SelectedMark, j);
    assert entryName[j] == '_' by {
      assert entryName[j] == entryName[j..j + |SelectedMark|][0];
      assert SelectedMark[0] == '_';
    }
    assert '_' in entryName;
    assert '_' !in entryName[..13] by {
      assert entryName[..13] == RacePrefix;
      assert forall i :: 0 <= i < 13 ==> RacePrefix[i] != '_';
    }
    var e := IndexOfChar(entryName, '_');
    assert forall i :: 0 <= i < 13 ==> entryName[i] == entryName[..13][i];
  }

  // ------------------------------------------------------------ the min helper

  /** The numeric suffix of a race id: Integer.parseInt(id.substring(1));
      None where parseInt throws, and an empty id makes substring throw. */
  function Suffix(id: string): Result<Option<int32>> {
    if |id| == 0 then Err("StringIndexOutOfBoundsException") else Ok(ParseInt(id[1..]))
  }

  /** Every id has a suffix that parses. */
  predicate AllParse(s: seq<string>) {
    forall i :: 0 <= i < |s| ==> Suffix(s[i]).Ok? && Suffix(s[i]).value.Some?
  }

  /** The rest of the loop of min, as written, from index i with running
      value m: the update re-reads s.get(0), so m never changes; a suffix
      that does not parse returns 0 and an empty id throws. */
  function MinFrom(s: seq<string>, i: nat, m: int32): Result<int32>
    requires i <= |s|
    decreases |s| - i
  {
    if i == |s| then Ok(m)
    else match Suffix(s[i])
      case Err(e) => Err(e)
      case Ok(None) => Ok(0)
      case Ok(Some(v)) => MinFrom(s, i + 1, m)
  }

  /** min(s) as written. */
  function MinAsWritten(s: seq<string>): Result<int32> {
    if |s| == 0 then Err("IndexOutOfBoundsException")
    else match Suffix(s[0])
      case Err(e) => Err(e)
      case Ok(None) => Ok(0)
      case Ok(Some(m)) => MinFrom(s, 1, m)
  }

  lemma {:induction false} MinFromKeeps(s: seq<string>, i: nat, m: int32)
    requires i <= |s| && AllParse(s)
    ensures MinFrom(s, i, m) == Ok(m)
    decreases |s| - i
  {
    if i < |s| {
      MinFromKeeps(s, i + 1, m);
    }
  }

  /** As written, min yields the suffix of the first id whenever all
      suffixes parse, whatever the others are. */
  lemma MinAsWrittenIsFirst(s: seq<string>)
    requires |s| > 0 && AllParse(s)
    ensures MinAsWritten(s) == Ok(Suffix(s[0]).value.value)
  {
    MinFromKeeps(s, 1, Suffix(s[0]).value.value);
  }

  /** ["B5", "B3"]: min yields 5, which is not the smallest suffix. */
  lemma MinAsWrittenCounterexample()
    ensures MinAsWritten(["B5", "B3"]) == Ok(5)
    ensures Suffix("B3") == Ok(Some(3))
  {
    var s := ["B5", "B3"];
    assert s[0][1..] == "5" && s[1][1..] == "3";
    assert ParseInt("5") == Some(5);
    assert ParseInt("3") == Some(3);
    assert AllParse(s);
    MinAsWrittenIsFirst(s);
  }

  /** The loop of min as written. */
  method MinLoop(s: seq<string>) returns (r: Result<int32>)
    ensures r == MinAsWritten(s)
  {
    if |s| == 0 {
      return Err("IndexOutOfBoundsException");
    }
    var first := Suffix(s[0]);
    if first.Err? {
      return Err(first.error);
    }
    if first.value.None? {
      return Ok(0);
    }
    var min := first.value.value;
    var i := 1;
    while i < |s|
      invariant 1 <= i <= |s|
      invariant min == first.value.value
      invariant MinFrom(s, i, min) == MinAsWritten(s)
    {
      var v := Suffix(s[i]);
      if v.Err? {
        return Err(v.error);
      }
      if v.value.None? {
        return Ok(0);
      }
      if v.value.value < min {
        min := first.value.value;
      }
      i := i + 1;
    }
    return Ok(min);
  }

  /** The intended loop: the running minimum takes the smaller suffix. */
  function MinFromCorrected(s: seq<string>, i: nat, m: int32): Result<int32>
    requires i <= |s|
    decreases |s| - i
  {
    if i == |s| then Ok(m)
    else match Suffix(s[i])
      case Err(e) => Err(e)
      case Ok(None) => Ok(0)
      case Ok(Some(v)) => MinFromCorrected(s, i + 1, if v < m then v else m)
  }

  /** min(s) as intended; the failure cases are those of the source. */
  function MinCorrected(s: seq<string>): Result<int32> {
    if |s| == 0 then Err("IndexOutOfBoundsException")
    else match Suffix(s[0])
      case Err(e) => Err(e)
      case Ok(None) => Ok(0)
      case Ok(Some(m)) => MinFromCorrected(s, 1, m)
  }

  lemma {:induction false} MinFromCorrectedIsMin(s: seq<string>, i: nat, m: int32)
    requires i <= |s| && AllParse(s)
    ensures MinFromCorrected(s, i, m).Ok?
    ensures var r := MinFromCorrected(s, i, m).value;
      r <= m && (forall j :: i <= j < |s| ==> r <= Suffix(s[j]).value.value) &&
      (r == m || exists j :: i <= j < |s| && r == Suffix(s[j]).value.value)
    decreases |s| - i
  {
    if i < |s| {
      var v := Suffix(s[i]).value.value;
      MinFromCorrectedIsMin(s, i + 1, if v < m then v else m);
    }
  }

  /** When every suffix parses, the corrected min is the smallest suffix. */
  lemma MinCorrectedIsMin(s: seq<string>)
    requires |s| > 0 && AllParse(s)
    ensures MinCorrected(s).Ok?
    ensures forall j :: 0 <= j < |s| ==> MinCorrected(s).value <= Suffix(s[j]).value.value
    ensures exists j :: 0 <= j < |s| && MinCorrected(s).value == Suffix(s[j]).value.value
  {
    MinFromCorrectedIsMin(s, 1, Suffix(s[0]).value.value);
  }

  /** The corrected loop. */
  method MinLoopCorrected(s: seq<string>) returns (r: Result<int32>)
    ensures r == MinCorrected(s)
  {
    if |s| == 0 {
      return Err("IndexOutOfBoundsException");
    }
    var first := Suffix(s[0]);
    if first.Err? {
      return Err(first.error);
    }
    if first.value.None? {
      return Ok(0);
    }
    var min := first.value.value;
    var i := 1;
    while i < |s|
      invariant 1 <= i <= |s|
      invariant MinFromCorrected(s, i, min) == MinCorrected(s)
    {
      var v := Suffix(s[i]);
      if v.Err? {
        return Err(v.error);
      }
      if v.value.None? {
        return Ok(0);
      }
      if v.value.value < min {
        min := v.value.value;
      }
      i := i + 1;
    }
    return Ok(min);
  }

  // ------------------------------------------------------------ result rows

  /** The row comparator of the results table on vote counts (None is a
      null count): nulls first, then by descending count, with
      BigInteger.compareTo's -1, 0 or 1. */
  function CompareCounts(a: Option<int>, b: Option<int>): (r: int)
    ensures -1 <= r <= 1
  {
    if a.None? && b.None? then 0
    else if a.None? then -1
    else if b.None? then 1
    else if b.value < a.value then -1
    else if b.value == a.value then 0
    else 1
  }

  /** The comparator is a total order consistent with equality: reversing
      the arguments negates it, it is 0 only on equal counts, and it is
      transitive; null counts sort before all others and larger counts
      before smaller. */
  lemma CompareCountsOrder(a: Option<int>, b: Option<int>, c: Option<int>)
    ensures CompareCounts(a, b) == -CompareCounts(b, a)
    ensures CompareCounts(a, b) == 0 <==> a == b
    ensures CompareCounts(a, b) <= 0 && CompareCounts(b, c) <= 0 ==> CompareCounts(a, c) <= 0
    ensures a.None? && b.Some? ==> CompareCounts(a, b) < 0
    ensures a.Some? && b.Some? ==> (CompareCounts(a, b) < 0 <==> a.value > b.value)
  {
  }

  // ------------------------------------------------------------ image sizes

  /** The size of an image as getWidth(null) and getHeight(null) report it. */
  datatype Picture = Picture(width: int, height: int)

  /** getWidestImage: -1 for no image, else the largest width. */
  method GetWidestImage(images: map<string, Picture>) returns (widest: int)
    ensures widest >= -1 && (|images| == 0 ==> widest == -1)
    ensures forall k :: k in images ==> images[k].width <= widest
    ensures widest == -1 || exists k :: k in images && images[k].width == widest
  {
    widest := -1;
    var remaining := images.Keys;
    while remaining != {}
      invariant remaining <= images.Keys && widest >= -1
      invariant forall k :: k in images && k !in remaining ==> images[k].width <= widest
      invariant widest == -1 || exists k :: k in images && images[k].width == widest
      decreases |remaining|
    {
      var k :| k in remaining;
      if images[k].width > widest {
        widest := images[k].width;
      }
      remaining := remaining - {k};
    }
  }

  /** getTallestImage: -1 for no image, else the largest height. */
  method GetTallestImage(images: map<string, Picture>) returns (tallest: int)
    ensures tallest >= -1 && (|images| == 0 ==> tallest == -1)
    ensures forall k :: k in images ==> images[k].height <= tallest
    ensures tallest == -1 || exists k :: k in images && images[k].height == tallest
  {
    tallest := -1;
    var remaining := images.Keys;
    while remaining != {}
      invariant remaining <= images.Keys && tallest >= -1
      invariant forall k :: k in images && k !in remaining ==> images[k].height <= tallest
      invariant tallest == -1 || exists k :: k in images && images[k].height == tallest
      decreases |remaining|
    {
      var k :| k in remaining;
      if images[k].height > tallest {
        tallest := images[k].height;
      }
      remaining := remaining - {k};
    }
  }

  // ------------------------------------------------------------ title grouping

  /** The race ids, in iteration order, whose title is the given one. */
  function RacesOf<T(==)>(titles: map<string, T>, order: seq<string>, title: T): seq<string>
    decreases |order|
  {
    if |order| == 0 then []
    else
      var k := order[|order| - 1];
      RacesOf(titles, order[..|order| - 1], title) + (if k in titles && titles[k] == title then [k] else [])
  }

  /** A race id is listed under a title exactly when it maps to that title,
      and then once. */
  lemma {:induction false} RacesOfExact<T>(titles: map<string, T>, order: seq<string>, title: T)
    requires forall i, j :: 0 <= i < j < |order| ==> order[i] != order[j]
    ensures forall k :: k in RacesOf(titles, order, title) <==> k in order && k in titles && titles[k] == title
    ensures forall i, j :: 0 <= i < j < |RacesOf(titles, order, title)| ==>
      RacesOf(titles, order, title)[i] != RacesOf(titles, order, title)[j]
    decreases |order|
  {
    if |order| > 0 {
      var init := order[..|order| - 1];
      RacesOfExact(titles, init, title);
      var k := order[|order| - 1];
      assert k !in init;
    }
  }

  /** The inner loop: the race ids that map to title. */
  method RacesFor<T(==)>(titles: map<string, T>, order: seq<string>, title: T) returns (raceIds: seq<string>)
    requires forall k :: k in order ==> k in titles
    ensures raceIds == RacesOf(titles, order, title)
  {
    raceIds := [];
    var i := 0;
    while i < |order|
      invariant 0 <= i <= |order|
      invariant raceIds == RacesOf(titles, order[..i], title)
    {
      assert order[..i + 1][..i] == order[..i];
      if titles[order[i]] == title {
        raceIds := raceIds + [order[i]];
      }
      i := i + 1;
    }
    assert order[..i] == order;
  }

  /** The title grouping of createFancyTreeTable: each title image object
      maps to the race ids (in iteration order) whose title it is. */
  method GroupByTitle<T(==)>(titles: map<string, T>, order: seq<string>) returns (titleToRaces: map<T, seq<string>>)
    requires Enumerates(titles, order)
    ensures titleToRaces.Keys == titles.Values
    ensures forall t :: t in titleToRaces ==> titleToRaces[t] == RacesOf(titles, order, t)
  {
    titleToRaces := map[];
    var i := 0;
    while i < |order|
      invariant 0 <= i <= |order|
      invariant titleToRaces.Keys == set j | 0 <= j < i :: titles[order[j]]
      invariant forall t :: t in titleToRaces ==> titleToRaces[t] == RacesOf(titles, order, t)
    {
      var title := titles[order[i]];
      var raceIds := RacesFor(titles, order, title);
      titleToRaces := titleToRaces[title := raceIds];
      i := i + 1;
    }
    forall t | t in titles.Values
      ensures t in titleToRaces
    {
      var k :| k in titles && titles[k] == t;
      var j :| 0 <= j < |order| && order[j] == k;
    }
  }

  /** Each race id is grouped under exactly the title it maps to, and under
      no other. */
  lemma GroupingExact<T>(titles: map<string, T>, order: seq<string>, titleToRaces: map<T, seq<string>>)
    requires Enumerates(titles, order)
    requires titleToRaces.Keys == titles.Values
    requires forall t :: t in titleToRaces ==> titleToRaces[t] == RacesOf(titles, order, t)
    ensures forall k :: k in titles ==> titles[k] in titleToRaces && k in titleToRaces[titles[k]]
    ensures forall t, k :: t in titleToRaces && k in titleToRaces[t] ==> k in titles && titles[k] == t
  {
    forall t | t in titleToRaces {
      RacesOfExact(titles, order, t);
    }
    forall k | k in titles
      ensures titles[k] in titleToRaces && k in titleToRaces[titles[k]]
    {
      RacesOfExact(titles, order, titles[k]);
    }
  }
}

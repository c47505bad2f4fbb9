/** A precinct's ballot books (supervisor/model/Precinct.java): committed
    ballots wait by ballot id until they are cast or challenged, each of
    which moves the ballot to the end of its list. */
module Precincts {
  import opened Wrappers
  import opened SExp

  /** A committed ballot: its id, the encrypted ballot and its nonce. */
  datatype Ballot = Ballot(bid: string, ballot: SExpr, nonce: SExpr)

  /** The three books: committed by id, then the cast and challenged lists. */
  datatype Books = Books(committed: map<string, Ballot>, cast: seq<Ballot>, challenged: seq<Ballot>)

  /** The number of ballots in the books. */
  function Total(b: Books): nat {
    |b.committed| + |b.cast| + |b.challenged|
  }

  /** commitBallot(bid, nonce, ballot). */
  function Commit(b: Books, bid: string, nonce: SExpr, ballot: SExpr): Books {
    b.(committed := b.committed[bid := Ballot(bid, ballot, nonce)])
  }

  /** castBallot(bid): the ballot committed under bid leaves committed and is
      appended to cast; the result says whether there was one. */
  function CastSpec(b: Books, bid: string): (Books, bool) {
    if bid in b.committed then (b.(committed := b.committed - {bid}, cast := b.cast + [b.committed[bid]]), true)
    else (b, false)
  }

  /** challengeBallot(bid): the same move, into challenged. */
  function ChallengeSpec(b: Books, bid: string): (Books, bool) {
    if bid in b.committed then (b.(committed := b.committed - {bid}, challenged := b.challenged + [b.committed[bid]]), true)
    else (b, false)
  }

  lemma RemoveOne<K, V>(m: map<K, V>, k: K)
    requires k in m
    ensures |m - {k}| == |m| - 1
  {
    var rest := m - {k};
    assert m.Keys == rest.Keys + {k};
  }

  /** Committing a new bid adds one ballot to the books; re-committing one
      replaces the ballot and adds none. */
  lemma CommitTotal(b: Books, bid: string, nonce: SExpr, ballot: SExpr)
    ensures Total(Commit(b, bid, nonce, ballot)) == Total(b) + (if bid in b.committed then 0 else 1)
    ensures Commit(b, bid, nonce, ballot).committed[bid] == Ballot(bid, ballot, nonce)
  {
    var m := b.committed;
    if bid in m {
      assert m[bid := Ballot(bid, ballot, nonce)].Keys == m.Keys;
    } else {
      assert m[bid := Ballot(bid, ballot, nonce)].Keys == m.Keys + {bid};
    }
  }

  /** Casting and challenging move ballots without losing or adding any;
      they succeed exactly when the bid is committed, and a failed one
      changes nothing. */
  lemma MoveTotal(b: Books, bid: string)
    ensures Total(CastSpec(b, bid).0) == Total(b) && Total(ChallengeSpec(b, bid).0) == Total(b)
    ensures CastSpec(b, bid).1 <==> bid in b.committed
    ensures ChallengeSpec(b, bid).1 <==> bid in b.committed
    ensures !CastSpec(b, bid).1 ==> CastSpec(b, bid).0 == b
    ensures !ChallengeSpec(b, bid).1 ==> ChallengeSpec(b, bid).0 == b
  {
    if bid in b.committed {
      RemoveOne(b.committed, bid);
    }
  }

  /** A ballot moves at most once: after a cast or a challenge of bid, a
      second cast or challenge of bid fails. */
  lemma MovesOnce(b: Books, bid: string)
    ensures !CastSpec(CastSpec(b, bid).0, bid).1 && !ChallengeSpec(CastSpec(b, bid).0, bid).1
    ensures !CastSpec(ChallengeSpec(b, bid).0, bid).1 && !ChallengeSpec(ChallengeSpec(b, bid).0, bid).1
  {
  }

  /** getChallengedBallots(): each challenged ballot's list form, in challenge order. */
  function ChallengedList(challenged: seq<Ballot>, toList: Ballot -> SExpr): (e: SExpr)
    ensures e.Lst? && |e.items| == |challenged|
    ensures forall i :: 0 <= i < |challenged| ==> e.items[i] == toList(challenged[i])
  {
    Lst(seq(|challenged|, i requires 0 <= i < |challenged| => toList(challenged[i])))
  }

  /** A precinct. allBallots is created empty and never written. */
  class Precinct {
    const precinctID: string
    const ballotFile: string
    var allBallots: map<string, Ballot>
    var committed: map<string, Ballot>
    var cast: seq<Ballot>
    var challenged: seq<Ballot>

    function State(): Books
      reads this
    {
      Books(committed, cast, challenged)
    }

    /** allBallots stays empty. */
    predicate Valid()
      reads this
    {
      allBallots == map[]
    }

    /** The constructor: empty books. The tallier it creates is not kept by
        the rest of this class and is left out. */
    constructor (precinctID: string, ballotFile: string)
      ensures Valid() && State() == Books(map[], [], [])
      ensures this.precinctID == precinctID && this.ballotFile == ballotFile
    {
      this.precinctID, this.ballotFile := precinctID, ballotFile;
      allBallots, committed, cast, challenged := map[], map[], [], [];
    }

    /** hasBID(bid). */
    function HasBID(bid: string): (r: bool)
      reads this
      ensures Valid() ==> !r
    {
      bid in allBallots
    }

    /** getBallot(bid). */
    function GetBallot(bid: string): (r: Option<Ballot>)
      reads this
      ensures Valid() ==> r.None?
    {
      if bid in allBallots then Some(allBallots[bid]) else None
    }

    /** getNonce(bid): a missing bid dereferences null. */
    function GetNonce(bid: string): (r: Result<SExpr>)
      reads this
      ensures Valid() ==> r == Err("NullPointerException")
    {
      if bid in allBallots then Ok(allBallots[bid].nonce) else Err("NullPointerException")
    }

    /** getCastBallotTotal(): the first cast ballot. */
    function GetCastBallotTotal(): (r: Result<Ballot>)
      reads this
      ensures r.Ok? <==> |cast| > 0
      ensures r.Ok? ==> r.value == cast[0]
    {
      if |cast| == 0 then Err("IndexOutOfBoundsException") else Ok(cast[0])
    }

    method CommitBallot(bid: string, nonce: SExpr, ballot: SExpr)
      modifies this
      ensures State() == Commit(old(State()), bid, nonce, ballot)
      ensures allBallots == old(allBallots)
    {
      committed := committed[bid := Ballot(bid, ballot, nonce)];
    }

    method CastBallot(bid: string) returns (ok: bool)
      modifies this
      ensures (State(), ok) == CastSpec(old(State()), bid)
      ensures allBallots == old(allBallots)
    {
      var toCast: Option<Ballot> := if bid in committed then Some(committed[bid]) else None;
      if toCast.None? {
        assert committed - {bid} == committed;
      }
      committed := committed - {bid};
      if toCast.Some? {
        cast := cast + [toCast.value];
      }
      ok := toCast.Some?;
    }

    method ChallengeBallot(bid: string) returns (ok: bool)
      modifies this
      ensures (State(), ok) == ChallengeSpec(old(State()), bid)
      ensures allBallots == old(allBallots)
    {
      var toChallenge: Option<Ballot> := if bid in committed then Some(committed[bid]) else None;
      if toChallenge.None? {
        assert committed - {bid} == committed;
      }
      committed := committed - {bid};
      if toChallenge.Some? {
        challenged := challenged + [toChallenge.value];
      }
      ok := toChallenge.Some?;
    }

    /** spoilBallot(bid): challenges the ballot, then looks it up in
        allBallots, which gives null. */
    method SpoilBallot(bid: string) returns (r: Option<Ballot>)
      modifies this
      ensures State() == ChallengeSpec(old(State()), bid).0
      ensures allBallots == old(allBallots)
      ensures r == old(GetBallot(bid))
      ensures Valid() ==> r.None?
    {
      var _ := ChallengeBallot(bid);
      r := GetBallot(bid);
    }

    /** getChallengedBallots(toListExpression). */
    method GetChallengedBallots(toList: Ballot -> SExpr) returns (r: SExpr)
      ensures r == ChallengedList(challenged, toList)
    {
      var ballotList: seq<SExpr> := [];
      var i := 0;
      while i < |challenged|
        invariant 0 <= i <= |challenged|
        invariant |ballotList| == i
        invariant forall j :: 0 <= j < i ==> ballotList[j] == toList(challenged[j])
      {
        ballotList := ballotList + [toList(challenged[i])];
        i := i + 1;
      }
      r := Lst(ballotList);
    }
  }
}

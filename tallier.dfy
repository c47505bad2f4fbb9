/** The challenge-delayed tallier with NIZKs
    (supervisor/model/tallier/ChallengeDelayedWithNIZKsTallier.java): ballots
    wait under their nonce until confirmed; confirming one reads it race group
    by race group, checks each group's key and proof and casts its vote into
    the election of its race ids. */
module Tallier {
  import opened Wrappers
  import opened Sequences
  import opened Bytes
  import opened SExp
  import opened Group
  import Votes

  /** An Adder election, as far as the tallier sees it: its prime and the
      votes cast into it, in order (Election.castVote itself is not part of
      this model). */
  datatype Election = Election(p: int, votes: seq<Votes.Vote>)

  /** The collaborators this class calls but the model does not define: the
      s-expression reader over the ballot bytes, confirmValid, the ciphertext
      codec of Vote.fromASE, VoteProof.fromASE and verify(vote, key, 0, 1),
      PublicKey.fromASE and toString().trim(), and makeId. A None or false
      stands for a thrown exception. */
  datatype TallyOps = TallyOps(
    read: seq<byte> -> Option<SExpr>,
    confirmValid: (SExpr, SExpr, SExpr, SExpr) -> bool,
    cipherCodec: Codec<Ciphertext>,
    proofOk: SExpr -> bool,
    verify: (SExpr, Votes.Vote, PublicKey) -> bool,
    keyOf: SExpr -> Option<PublicKey>,
    keyText: PublicKey -> string,
    makeId: seq<string> -> string)

  /** Why confirmed gives up on a ballot; each logs its own message. */
  datatype Reason =
    | KeyMismatch   // "Expected supplied final PublicKey to match generated"
    | NizkFailed    // "Ballot failed NIZK test"
    | Malformed     // "Malformed ballot received": an exception caught in the try block

  /** A race group's outcome: the election id and the vote to cast, or why
      the ballot stops there. */
  datatype GroupResult = Pass(id: string, vote: Votes.Vote) | Stop(reason: Reason)

  /** The race ids of a vote-ids list, each element's text. */
  function IdTexts(es: seq<SExpr>): (ids: seq<string>)
    ensures |ids| == |es| && forall j :: 0 <= j < |es| ==> ids[j] == SExp.ToString(es[j])
  {
    seq(|es|, j requires 0 <= j < |es| => SExp.ToString(es[j]))
  }

  /** One race group of a confirmed ballot: the election id and the vote to
      cast, or the message logged when the group stops the ballot. */
  function GroupOutcome(g: SExpr, ops: TallyOps, fk: PublicKey): GroupResult {
    if !g.Lst? || |g.items| < 4 then Stop(Malformed)
    else
      var voteE, voteIdsE, proofE, publicKeyE := g.items[0], g.items[1], g.items[2], g.items[3];
      if !voteE.Lst? || !voteIdsE.Lst? || !proofE.Lst? || !publicKeyE.Lst? then Stop(Malformed)
      else if !ops.confirmValid(voteE, voteIdsE, proofE, publicKeyE) then Stop(Malformed)
      else if |voteE.items| < 2 then Stop(Malformed)
      else match Votes.OfASE(voteE.items[1], ops.cipherCodec)
        case Err(_) => Stop(Malformed)
        case Ok(vote) =>
          if |voteIdsE.items| < 2 || !voteIdsE.items[1].Lst? then Stop(Malformed)
          else
            var voteIds := IdTexts(voteIdsE.items[1].items);
            if |proofE.items| < 2 || !ops.proofOk(proofE.items[1]) then Stop(Malformed)
            else if |publicKeyE.items| < 2 then Stop(Malformed)
            else match ops.keyOf(publicKeyE.items[1])
              case None => Stop(Malformed)
              case Some(supplied) =>
                if ops.keyText(supplied) != ops.keyText(fk) then Stop(KeyMismatch)
                else if !ops.verify(proofE.items[1], vote, fk) then Stop(NizkFailed)
                else Pass(ops.makeId(voteIds), vote)
  }

  /** A group passes only when it has the four parts, its supplied key reads
      as the final key and its proof verifies the vote under the final key;
      it is then cast under makeId of its vote ids. A key mismatch is
      reported only for a supplied key that reads differently. */
  lemma GroupOutcomeChecks(g: SExpr, ops: TallyOps, fk: PublicKey)
    ensures var r := GroupOutcome(g, ops, fk);
      r.Pass? ==>
        g.Lst? && |g.items| >= 4 && g.items[1].Lst? && g.items[2].Lst? && g.items[3].Lst? &&
        |g.items[1].items| >= 2 && g.items[1].items[1].Lst? &&
        |g.items[2].items| >= 2 && |g.items[3].items| >= 2 &&
        ops.keyOf(g.items[3].items[1]).Some? &&
        ops.keyText(ops.keyOf(g.items[3].items[1]).value) == ops.keyText(fk) &&
        ops.verify(g.items[2].items[1], r.vote, fk) &&
        r.id == ops.makeId(IdTexts(g.items[1].items[1].items))
    ensures GroupOutcome(g, ops, fk) == Stop(KeyMismatch) ==>
      g.Lst? && |g.items| >= 4 && g.items[3].Lst? && |g.items[3].items| >= 2 &&
      ops.keyOf(g.items[3].items[1]).Some? &&
      ops.keyText(ops.keyOf(g.items[3].items[1]).value) != ops.keyText(fk)
  {
  }

  /** The votes cast so far into the election with the given id. */
  function VotesOf(results: map<string, Election>, id: string): seq<Votes.Vote> {
    if id in results then results[id].votes else []
  }

  /** Casting a vote into the election of id, created with prime p when absent. */
  function Cast(results: map<string, Election>, id: string, v: Votes.Vote, p: int): map<string, Election> {
    var e := if id in results then results[id] else Election(p, []);
    results[id := e.(votes := e.votes + [v])]
  }

  /** The outcome of every race group of a ballot. */
  function Outcomes(groups: seq<SExpr>, ops: TallyOps, fk: PublicKey): (outs: seq<GroupResult>)
    ensures |outs| == |groups|
  {
    if |groups| == 0 then [] else Outcomes(groups[..|groups| - 1], ops, fk) + [GroupOutcome(groups[|groups| - 1], ops, fk)]
  }

  lemma {:induction false} OutcomesAt(groups: seq<SExpr>, ops: TallyOps, fk: PublicKey, i: nat)
    requires i < |groups|
    ensures Outcomes(groups, ops, fk)[i] == GroupOutcome(groups[i], ops, fk)
    decreases |groups|
  {
    if i < |groups| - 1 {
      var init := groups[..|groups| - 1];
      OutcomesAt(init, ops, fk, i);
      assert init[i] == groups[i];
    }
  }

  /** The loop of confirmed over the first n group outcomes: the elections
      it leaves and the message it stopped with, if any. */
  function Confirm(results: map<string, Election>, outs: seq<GroupResult>, p: int, n: nat)
    : (map<string, Election>, Option<Reason>)
    requires n <= |outs|
  {
    if n == 0 then (results, None)
    else
      var prev := Confirm(results, outs, p, n - 1);
      if prev.1.Some? then prev
      else match outs[n - 1]
        case Stop(why) => (prev.0, Some(why))
        case Pass(id, v) => (Cast(prev.0, id, v, p), None)
  }

  /** How many leading outcomes among the first n pass. */
  function Passing(outs: seq<GroupResult>, n: nat): (k: nat)
    requires n <= |outs|
    ensures k <= n
    ensures forall j :: 0 <= j < k ==> outs[j].Pass?
    ensures k < n ==> outs[k].Stop?
  {
    if n == 0 then 0
    else
      var k := Passing(outs, n - 1);
      if k < n - 1 then k
      else if outs[n - 1].Pass? then n
      else n - 1
  }

  /** The votes the first n outcomes contribute to the election with the given id. */
  function Contributed(outs: seq<GroupResult>, n: nat, id: string): seq<Votes.Vote>
    requires n <= |outs|
    requires forall j :: 0 <= j < n ==> outs[j].Pass?
  {
    if n == 0 then []
    else
      var c := outs[n - 1];
      Contributed(outs, n - 1, id) + (if c.id == id then [c.vote] else [])
  }

  /** confirmed stops at the first failing group: it reports no message
      exactly when all groups pass, and otherwise the failing group's. */
  lemma {:induction false} ConfirmStopsAtFirst(results: map<string, Election>, outs: seq<GroupResult>,
                                               p: int, n: nat)
    requires n <= |outs|
    ensures var k := Passing(outs, n);
      var r := Confirm(results, outs, p, n);
      (r.1.None? <==> k == n) && (r.1.Some? ==> r.1 == Some(outs[k].reason))
    decreases n
  {
    if n > 0 {
      ConfirmStopsAtFirst(results, outs, p, n - 1);
    }
  }

  /** The groups before the first failing one were cast, each into the
      election of its own id and in group order; no other election changes. */
  lemma {:induction false} ConfirmVotes(results: map<string, Election>, outs: seq<GroupResult>,
                                        p: int, n: nat, id: string)
    requires n <= |outs|
    ensures VotesOf(Confirm(results, outs, p, n).0, id) == VotesOf(results, id) + Contributed(outs, Passing(outs, n), id)
    decreases n
  {
    if n > 0 {
      ConfirmVotes(results, outs, p, n - 1, id);
      ConfirmStopsAtFirst(results, outs, p, n - 1);
      var k := Passing(outs, n - 1);
      var prev := Confirm(results, outs, p, n - 1);
      if k == n - 1 && outs[n - 1].Pass? {
        var c := outs[n - 1];
        assert prev.1.None?;
        assert Passing(outs, n) == n;
        assert Confirm(results, outs, p, n).0 == Cast(prev.0, c.id, c.vote, p);
        var extra := if c.id == id then [c.vote] else [];
        assert Contributed(outs, n, id) == Contributed(outs, n - 1, id) + extra;
        CastVotes(prev.0, c.id, c.vote, p, id);
        Assoc(VotesOf(results, id), Contributed(outs, n - 1, id), extra);
      } else {
        assert Passing(outs, n) == k;
        assert Confirm(results, outs, p, n).0 == prev.0;
      }
    }
  }

  /** Casting adds the vote to its own election only. */
  lemma CastVotes(results: map<string, Election>, cid: string, v: Votes.Vote, p: int, id: string)
    ensures VotesOf(Cast(results, cid, v, p), id) == VotesOf(results, id) + (if cid == id then [v] else [])
  {
  }

  /** Elections are only ever added, and one created on the way gets the
      key's prime. */
  lemma {:induction false} ConfirmElections(results: map<string, Election>, outs: seq<GroupResult>,
                                            p: int, n: nat, id: string)
    requires n <= |outs|
    ensures id in results ==> id in Confirm(results, outs, p, n).0 && Confirm(results, outs, p, n).0[id].p == results[id].p
    ensures id !in results && id in Confirm(results, outs, p, n).0 ==> Confirm(results, outs, p, n).0[id].p == p
    decreases n
  {
    if n > 0 {
      ConfirmElections(results, outs, p, n - 1, id);
    }
  }

  /** What confirmed(nonce) leaves and reports. */
  datatype Outcome =
    | Tallied                 // every race group was cast
    | Rejected(why: Reason)   // the ballot stopped; the reason's message is logged
    | Thrown(exc: string)     // the nonce was not pending: a NullPointerException escapes

  /** The tallier. The pending map is keyed by nonce; results, the public
      key and the cached final key belong to the superclass, which is not
      part of this model beyond these fields. */
  class ChallengeDelayedTallier {
    var pending: map<SExpr, seq<byte>>
    var finalKey: Option<PublicKey>
    var results: map<string, Election>
    const publicKey: PublicKey
    const ops: TallyOps

    constructor (pub: PublicKey, ops: TallyOps)
      ensures pending == map[] && finalKey.None? && results == map[]
      ensures publicKey == pub && this.ops == ops
    {
      pending, finalKey, results := map[], None, map[];
      publicKey, this.ops := pub, ops;
    }

    /** recordVotes(ballot, nonce): the ballot waits under its nonce,
        replacing an earlier one. */
    method RecordVotes(ballot: seq<byte>, nonce: SExpr)
      modifies this
      ensures pending == old(pending)[nonce := ballot]
      ensures finalKey == old(finalKey) && results == old(results)
    {
      pending := pending[nonce := ballot];
    }

    /** confirmed(nonce), with derived the key generateFinalPublicKey returns
        on this call. keyChanged says whether "Final public key changed!" is
        logged. */
    method Confirmed(nonce: SExpr, derived: PublicKey) returns (out: Outcome, keyChanged: bool)
      modifies this
      ensures pending == old(pending) - {nonce}
      ensures finalKey == Some(if old(finalKey).Some? then old(finalKey).value else derived)
      ensures keyChanged <==> old(finalKey).Some? && old(finalKey).value != derived
      ensures (results, out) == ConfirmSpec(old(results), if nonce in old(pending) then Some(old(pending)[nonce]) else None,
                                            ops, finalKey.value, publicKey.p)
    {
      var ballotBytes: Option<seq<byte>> := if nonce in pending then Some(pending[nonce]) else None;
      pending := pending - {nonce};
      keyChanged := false;
      if finalKey.None? {
        finalKey := Some(derived);
      } else {
        keyChanged := finalKey.value != derived;
      }
      results, out := ConfirmBallot(results, ballotBytes, ops, finalKey.value, publicKey.p);
    }
  }

  /** confirmed(nonce) after the key step, given the bytes pending under the
      nonce (None when it was not pending): the elections it leaves and its
      outcome. */
  function ConfirmSpec(results: map<string, Election>, bytes: Option<seq<byte>>, ops: TallyOps, fk: PublicKey, p: int)
    : (map<string, Election>, Outcome)
  {
    if bytes.None? then (results, Thrown("NullPointerException"))
    else match ops.read(bytes.value)
      case None => (results, Rejected(Malformed))
      case Some(e) =>
        if !e.Lst? then (results, Rejected(Malformed))
        else
          var r := Confirm(results, Outcomes(e.items, ops, fk), p, |e.items|);
          (r.0, if r.1.None? then Tallied else Rejected(r.1.value))
  }

  /** The part of confirmed from the reader on. */
  method ConfirmBallot(results0: map<string, Election>, ballotBytes: Option<seq<byte>>, ops: TallyOps, fk: PublicKey, p: int)
    returns (results: map<string, Election>, out: Outcome)
    ensures (results, out) == ConfirmSpec(results0, ballotBytes, ops, fk, p)
  {
    results := results0;
    if ballotBytes.None? {
      return results, Thrown("NullPointerException");
    }
    var sexp := ops.read(ballotBytes.value);
    if sexp.None? || !sexp.value.Lst? {
      return results, Rejected(Malformed);
    }
    var stop;
    results, stop := ConfirmGroups(results0, sexp.value.items, ops, fk, p);
    out := if stop.None? then Tallied else Rejected(stop.value);
  }

  /** The loop of confirmed over the race groups of the ballot. */
  method ConfirmGroups(results0: map<string, Election>, ballot: seq<SExpr>, ops: TallyOps, fk: PublicKey, p: int)
    returns (results: map<string, Election>, stop: Option<Reason>)
    ensures results == Confirm(results0, Outcomes(ballot, ops, fk), p, |ballot|).0
    ensures stop == Confirm(results0, Outcomes(ballot, ops, fk), p, |ballot|).1
  {
    results := results0;
    ghost var outs := Outcomes(ballot, ops, fk);
    var i := 0;
    while i < |ballot|
      invariant 0 <= i <= |ballot|
      invariant Confirm(results0, outs, p, i).0 == results && Confirm(results0, outs, p, i).1.None?
    {
      var g := ReadGroup(ballot[i], ops, fk);
      OutcomesAt(ballot, ops, fk, i);
      ConfirmNext(results0, outs, p, i, g);
      if g.Stop? {
        ConfirmStops(results0, outs, p, i + 1, |ballot|);
        return results, Some(g.reason);
      }
      results := Cast(results, g.id, g.vote, p);
      i := i + 1;
    }
    return results, None;
  }

  /** One more group outcome: a failing one stops with its reason, a
      passing one is cast. */
  lemma ConfirmNext(results: map<string, Election>, outs: seq<GroupResult>, p: int, i: nat, g: GroupResult)
    requires i < |outs| && outs[i] == g && Confirm(results, outs, p, i).1.None?
    ensures var prev := Confirm(results, outs, p, i).0;
      Confirm(results, outs, p, i + 1) == if g.Stop? then (prev, Some(g.reason)) else (Cast(prev, g.id, g.vote, p), None)
  {
  }

  lemma {:induction false} ConfirmStops(results: map<string, Election>, outs: seq<GroupResult>,
                                        p: int, i: nat, n: nat)
    requires i <= n <= |outs| && Confirm(results, outs, p, i).1.Some?
    ensures Confirm(results, outs, p, n) == Confirm(results, outs, p, i)
    decreases n
  {
    if i < n {
      ConfirmStops(results, outs, p, i, n - 1);
    }
  }

  /** The loop building voteIds. */
  method ReadIds(es: seq<SExpr>) returns (ids: seq<string>)
    ensures ids == IdTexts(es)
  {
    ids := [];
    var j := 0;
    while j < |es|
      invariant 0 <= j <= |es|
      invariant ids == IdTexts(es[..j])
    {
      ids := ids + [SExp.ToString(es[j])];
      j := j + 1;
    }
    assert es[..|es|] == es;
  }

  /** The body of confirmed's loop for one race group, up to the cast. */
  method ReadGroup(g: SExpr, ops: TallyOps, fk: PublicKey) returns (r: GroupResult)
    ensures r == GroupOutcome(g, ops, fk)
  {
    if !g.Lst? || |g.items| < 4 {
      return Stop(Malformed);
    }
    var voteE, voteIdsE, proofE, publicKeyE := g.items[0], g.items[1], g.items[2], g.items[3];
    if !voteE.Lst? || !voteIdsE.Lst? || !proofE.Lst? || !publicKeyE.Lst? {
      return Stop(Malformed);
    }
    if !ops.confirmValid(voteE, voteIdsE, proofE, publicKeyE) || |voteE.items| < 2 {
      return Stop(Malformed);
    }
    var vote := Votes.FromASE(voteE.items[1], ops.cipherCodec);
    if vote.Err? || |voteIdsE.items| < 2 || !voteIdsE.items[1].Lst? {
      return Stop(Malformed);
    }
    var voteIds := ReadIds(voteIdsE.items[1].items);
    if |proofE.items| < 2 || !ops.proofOk(proofE.items[1]) || |publicKeyE.items| < 2 {
      return Stop(Malformed);
    }
    var supplied := ops.keyOf(publicKeyE.items[1]);
    if supplied.None? {
      return Stop(Malformed);
    }
    if ops.keyText(supplied.value) != ops.keyText(fk) {
      return Stop(KeyMismatch);
    }
    if !ops.verify(proofE.items[1], vote.value, fk) {
      return Stop(NizkFailed);
    }
    return Pass(ops.makeId(voteIds), vote.value);
  }
}

/** The ballot encrypter (crypto/BallotEncrypter.java): it groups a plaintext
    ballot into race groups, encrypts each group as an Adder vote with its
    proof, keeps the randomness it used, and decrypts again with that
    randomness. Key derivation, the vote proof, the public key's own
    s-expression and the AES write-in key are operations the model receives
    as parameters. */
module BallotEncryption {
  import opened Wrappers
  import opened Numeric
  import opened JavaStrings
  import opened SExp
  import opened Group
  import Votes
  import opened Sequences

  /** The Adder operations this class calls but the model does not define:
      AdderKeyManipulator.generateFinalPublicKey, PublicKey.toASE, the
      ElgamalCiphertext s-expression codec, and VoteProof.compute followed by
      toASE. */
  datatype AdderOps = AdderOps(
    finalKey: PublicKey -> PublicKey,
    keyASE: PublicKey -> SExpr,
    cipherCodec: Codec<Ciphertext>,
    proofASE: (seq<Ciphertext>, PublicKey, seq<int>) -> SExpr)

  // ---- The id -> record map ------------------------------------------------

  /** The candidate id a ballot record is filed under: the text of its first element. */
  function RecordId(e: SExpr): Option<string> {
    if e.Lst? && |e.items| >= 1 then Some(SExp.ToString(e.items[0])) else None
  }

  /** The HashMap filled from the ballot: every record must be a nonempty
      list; a later record replaces an earlier one with the same id. */
  function BallotMap(ballot: seq<SExpr>): (r: Result<map<string, SExpr>>)
  {
    if |ballot| == 0 then Ok(map[])
    else match BallotMap(ballot[..|ballot| - 1])
      case Err(e) => Err(e)
      case Ok(m) =>
        var e := ballot[|ballot| - 1];
        if !e.Lst? then Err("ClassCastException")
        else if |e.items| == 0 then Err("IndexOutOfBoundsException")
        else Ok(m[SExp.ToString(e.items[0]) := e])
  }

  /** The last record filed under id, searched from the end of the ballot. */
  function LastWithId(ballot: seq<SExpr>, id: string): Option<SExpr> {
    if |ballot| == 0 then None
    else if RecordId(ballot[|ballot| - 1]) == Some(id) then Some(ballot[|ballot| - 1])
    else LastWithId(ballot[..|ballot| - 1], id)
  }

  /** The map exists exactly when every record has an id. */
  lemma {:induction false} BallotMapOk(ballot: seq<SExpr>)
    ensures BallotMap(ballot).Ok? <==> forall j :: 0 <= j < |ballot| ==> RecordId(ballot[j]).Some?
    decreases |ballot|
  {
    if |ballot| > 0 {
      var init := ballot[..|ballot| - 1];
      BallotMapOk(init);
      assert forall j :: 0 <= j < |init| ==> init[j] == ballot[j];
    }
  }

  /** Its keys are the ids of the records, and each id maps to the last
      record filed under it. */
  lemma {:induction false} BallotMapLast(ballot: seq<SExpr>)
    requires BallotMap(ballot).Ok?
    ensures forall id ::
      (id in BallotMap(ballot).value <==> LastWithId(ballot, id).Some?) &&
      (id in BallotMap(ballot).value ==> BallotMap(ballot).value[id] == LastWithId(ballot, id).value)
    decreases |ballot|
  {
    if |ballot| > 0 {
      BallotMapLast(ballot[..|ballot| - 1]);
    }
  }

  /** An id no record carries has no record. */
  lemma {:induction false} LastWithIdNone(ballot: seq<SExpr>, id: string)
    requires forall j :: 0 <= j < |ballot| ==> RecordId(ballot[j]) != Some(id)
    ensures LastWithId(ballot, id).None?
    decreases |ballot|
  {
    if |ballot| > 0 {
      var init := ballot[..|ballot| - 1];
      assert forall j :: 0 <= j < |init| ==> init[j] == ballot[j];
      LastWithIdNone(init, id);
    }
  }

  /** The records of one race group, looked up by id; a missing id gives null. */
  function Records(m: map<string, SExpr>, group: seq<string>): (rs: seq<Option<SExpr>>)
    ensures |rs| == |group|
    ensures forall i :: 0 <= i < |group| ==> rs[i] == if group[i] in m then Some(m[group[i]]) else None
  {
    seq(|group|, i requires 0 <= i < |group| => if group[i] in m then Some(m[group[i]]) else None)
  }

  // ---- One sub-ballot ----------------------------------------------------------

  /** One (candidate-id counter) record read as a choice: its counter parsed
      as an AdderInteger and its id element. */
  function Choice(rec: Option<SExpr>): Result<(int, SExpr)> {
    match rec
    case None => Err("NullPointerException")
    case Some(e) =>
      if !e.Lst? then Err("ClassCastException")
      else if |e.items| < 2 then Err("IndexOutOfBoundsException")
      else match ParseBigInteger(SExp.ToString(e.items[1]))
        case None => Err("NumberFormatException")
        case Some(v) => Ok((v, e.items[0]))
  }

  /** The loop of encryptSubBallotWithProof over the records: the counters
      and the ids, in record order; the first bad record is the error. */
  function Choices(recs: seq<Option<SExpr>>): (r: Result<(seq<int>, seq<SExpr>)>)
    ensures r.Ok? ==> |r.value.0| == |recs| && |r.value.1| == |recs|
  {
    if |recs| == 0 then Ok(([], []))
    else match Choices(recs[..|recs| - 1])
      case Err(e) => Err(e)
      case Ok(vi) =>
        match Choice(recs[|recs| - 1])
        case Err(e) => Err(e)
        case Ok(c) => Ok((vi.0 + [c.0], vi.1 + [c.1]))
  }

  /** The counters encrypted under the final key, slot i with randomness rnd(g, i). */
  function EncryptValues(fk: PublicKey, vs: seq<int>, rnd: (nat, nat) -> int, g: nat): (cs: seq<Ciphertext>)
    ensures |cs| == |vs|
  {
    seq(|vs|, i requires 0 <= i < |vs| => Encrypt(fk, vs[i], rnd(g, i)))
  }

  /** The randomness each ciphertext carries (cipher.getR()). */
  function Randoms(cs: seq<Ciphertext>): (rs: seq<int>)
    ensures |rs| == |cs| && forall i :: 0 <= i < |cs| ==> rs[i] == cs[i].r
  {
    seq(|cs|, i requires 0 <= i < |cs| => cs[i].r)
  }

  /** ((vote V) (vote-ids ids) (proof P) (public-key K)). */
  function SubBallotASE(ops: AdderOps, fk: PublicKey, vs: seq<int>, ids: seq<SExpr>, cs: seq<Ciphertext>): SExpr {
    Lst([Lst([Str("vote"), Votes.ASE(Votes.Vote(cs), ops.cipherCodec)]),
         Lst([Str("vote-ids"), Lst(ids)]),
         Lst([Str("proof"), ops.proofASE(cs, fk, vs)]),
         Lst([Str("public-key"), ops.keyASE(fk)])])
  }

  /** encryptSubBallotWithProof for race group number g: the sub-ballot and
      the randomness list it appends. */
  function SubBallot(recs: seq<Option<SExpr>>, k: PublicKey, ops: AdderOps, rnd: (nat, nat) -> int, g: nat)
    : Result<(SExpr, seq<int>)>
  {
    match Choices(recs)
    case Err(e) => Err(e)
    case Ok(vi) =>
      var fk := ops.finalKey(k);
      var cs := EncryptValues(fk, vi.0, rnd, g);
      Ok((SubBallotASE(ops, fk, vi.0, vi.1, cs), Randoms(cs)))
  }

  lemma {:induction false} ChoicesOk(recs: seq<Option<SExpr>>)
    ensures Choices(recs).Ok? <==> forall i :: 0 <= i < |recs| ==> Choice(recs[i]).Ok?
    ensures Choices(recs).Ok? ==> forall i :: 0 <= i < |recs| ==>
      Choice(recs[i]).value == (Choices(recs).value.0[i], Choices(recs).value.1[i])
    decreases |recs|
  {
    if |recs| > 0 {
      var init := recs[..|recs| - 1];
      ChoicesOk(init);
      assert forall i :: 0 <= i < |init| ==> init[i] == recs[i];
    }
  }

  /** A sub-ballot is built exactly when every record is present, a list of
      at least two elements and has a numeric counter. It is then
      ((vote V) (vote-ids ids) (proof P) (public-key K)) with the ids in
      record order, V the encryptions of the counters under the final key,
      and the randomness list holding each slot's randomness reduced mod q. */
  lemma SubBallotShape(recs: seq<Option<SExpr>>, k: PublicKey, ops: AdderOps, rnd: (nat, nat) -> int, g: nat)
    ensures SubBallot(recs, k, ops, rnd, g).Ok? <==>
      forall i :: 0 <= i < |recs| ==>
        (recs[i].Some? && recs[i].value.Lst? && |recs[i].value.items| >= 2 &&
         ParseBigInteger(SExp.ToString(recs[i].value.items[1])).Some?)
    ensures SubBallot(recs, k, ops, rnd, g).Ok? ==>
      var sb := SubBallot(recs, k, ops, rnd, g).value;
      var fk := ops.finalKey(k);
      sb.0.Lst? && |sb.0.items| == 4 &&
      sb.0.items[0] == Lst([Str("vote"), sb.0.items[0].items[1]]) &&
      sb.0.items[1] == Lst([Str("vote-ids"), Lst(seq(|recs|, i requires 0 <= i < |recs| => recs[i].value.items[0]))]) &&
      sb.0.items[2].Lst? && sb.0.items[2].items[0] == Str("proof") &&
      sb.0.items[3] == Lst([Str("public-key"), ops.keyASE(fk)]) &&
      |sb.1| == |recs| && forall i :: 0 <= i < |recs| ==> sb.1[i] == rnd(g, i) % fk.q
  {
    ChoicesOk(recs);
    if SubBallot(recs, k, ops, rnd, g).Ok? {
      var vi := Choices(recs).value;
      assert vi.1 == seq(|recs|, i requires 0 <= i < |recs| => recs[i].value.items[0]);
    }
  }

  /** The vote of a sub-ballot reads back through Vote.fromASE as the
      encryptions of the counters. */
  lemma SubBallotVote(recs: seq<Option<SExpr>>, k: PublicKey, ops: AdderOps, rnd: (nat, nat) -> int, g: nat)
    requires RoundTrips(ops.cipherCodec)
    requires SubBallot(recs, k, ops, rnd, g).Ok?
    ensures var fk := ops.finalKey(k);
      var vs := Choices(recs).value.0;
      Votes.OfASE(SubBallot(recs, k, ops, rnd, g).value.0.items[0].items[1], ops.cipherCodec)
        == Ok(Votes.Vote(EncryptValues(fk, vs, rnd, g)))
  {
    var fk := ops.finalKey(k);
    Votes.ASERoundTrip(Votes.Vote(EncryptValues(fk, Choices(recs).value.0, rnd, g)), ops.cipherCodec);
  }

  // ---- The whole ballot ------------------------------------------------------------

  /** The loop over the first n race groups: the randomness lists appended
      and the sub-ballots; it stops at the first group that fails. */
  function Groups(m: map<string, SExpr>, groups: seq<seq<string>>, k: PublicKey, ops: AdderOps,
                  rnd: (nat, nat) -> int, n: nat): (r: (seq<seq<int>>, Result<seq<SExpr>>))
    requires n <= |groups|
    ensures r.1.Ok? ==> |r.0| == n && |r.1.value| == n
    ensures |r.0| <= n
  {
    if n == 0 then ([], Ok([]))
    else
      var prev := Groups(m, groups, k, ops, rnd, n - 1);
      if prev.1.Err? then prev
      else match SubBallot(Records(m, groups[n - 1]), k, ops, rnd, n - 1)
        case Err(e) => (prev.0, Err(e))
        case Ok(sb) => (prev.0 + [sb.1], Ok(prev.1.value + [sb.0]))
  }

  /** encryptWithProof: the randomness lists it leaves and the result. The
      ballot map comes first; then one sub-ballot per race group, then the
      encrypted write-in key. */
  function EncryptSpec(ballot: seq<SExpr>, groups: seq<seq<string>>, k: PublicKey, ops: AdderOps,
                       rnd: (nat, nat) -> int, keyCipher: SExpr): (seq<seq<int>>, Result<SExpr>)
  {
    match BallotMap(ballot)
    case Err(e) => ([], Err(e))
    case Ok(m) =>
      var g := Groups(m, groups, k, ops, rnd, |groups|);
      (g.0, if g.1.Err? then Err(g.1.error) else Ok(Lst(g.1.value + [keyCipher])))
  }

  lemma {:induction false} GroupsOk(m: map<string, SExpr>, groups: seq<seq<string>>, k: PublicKey, ops: AdderOps,
                                    rnd: (nat, nat) -> int, n: nat)
    requires n <= |groups|
    ensures Groups(m, groups, k, ops, rnd, n).1.Ok? <==>
      forall g :: 0 <= g < n ==> SubBallot(Records(m, groups[g]), k, ops, rnd, g).Ok?
    decreases n
  {
    if n > 0 {
      GroupsOk(m, groups, k, ops, rnd, n - 1);
    }
  }

  lemma {:induction false} GroupsValues(m: map<string, SExpr>, groups: seq<seq<string>>, k: PublicKey, ops: AdderOps,
                                        rnd: (nat, nat) -> int, n: nat)
    requires n <= |groups| && Groups(m, groups, k, ops, rnd, n).1.Ok?
    ensures forall g :: 0 <= g < n ==>
      SubBallot(Records(m, groups[g]), k, ops, rnd, g).Ok? &&
      Groups(m, groups, k, ops, rnd, n).1.value[g] == SubBallot(Records(m, groups[g]), k, ops, rnd, g).value.0 &&
      Groups(m, groups, k, ops, rnd, n).0[g] == SubBallot(Records(m, groups[g]), k, ops, rnd, g).value.1
    decreases n
  {
    if n > 0 {
      var prev := Groups(m, groups, k, ops, rnd, n - 1);
      assert prev.1.Ok?;
      GroupsValues(m, groups, k, ops, rnd, n - 1);
      var sb := SubBallot(Records(m, groups[n - 1]), k, ops, rnd, n - 1);
      assert Groups(m, groups, k, ops, rnd, n) == (prev.0 + [sb.value.1], Ok(prev.1.value + [sb.value.0]));
    }
  }

  /** A successful encryptWithProof gives |raceGroups| + 1 elements: the
      sub-ballot of each race group in order, then the encrypted write-in key;
      it leaves one randomness list per group, as long as the group. */
  lemma EncryptShape(ballot: seq<SExpr>, groups: seq<seq<string>>, k: PublicKey, ops: AdderOps,
                     rnd: (nat, nat) -> int, keyCipher: SExpr)
    requires EncryptSpec(ballot, groups, k, ops, rnd, keyCipher).1.Ok?
    ensures var r := EncryptSpec(ballot, groups, k, ops, rnd, keyCipher);
      var m := BallotMap(ballot).value;
      r.1.value.Lst? && |r.1.value.items| == |groups| + 1 &&
      r.1.value.items[|groups|] == keyCipher &&
      |r.0| == |groups| &&
      forall g :: 0 <= g < |groups| ==>
        SubBallot(Records(m, groups[g]), k, ops, rnd, g).Ok? &&
        r.1.value.items[g] == SubBallot(Records(m, groups[g]), k, ops, rnd, g).value.0 &&
        r.0[g] == SubBallot(Records(m, groups[g]), k, ops, rnd, g).value.1 &&
        |r.0[g]| == |groups[g]|
  {
    var m := BallotMap(ballot).value;
    GroupsValues(m, groups, k, ops, rnd, |groups|);
    forall g | 0 <= g < |groups|
      ensures |SubBallot(Records(m, groups[g]), k, ops, rnd, g).value.1| == |groups[g]|
    {
      SubBallotShape(Records(m, groups[g]), k, ops, rnd, g);
    }
  }

  /** A race-group id that no ballot record carries makes encryptWithProof fail. */
  lemma MissingIdFails(ballot: seq<SExpr>, groups: seq<seq<string>>, k: PublicKey, ops: AdderOps,
                       rnd: (nat, nat) -> int, keyCipher: SExpr, g: nat, i: nat)
    requires g < |groups| && i < |groups[g]|
    requires forall j :: 0 <= j < |ballot| ==> RecordId(ballot[j]) != Some(groups[g][i])
    ensures EncryptSpec(ballot, groups, k, ops, rnd, keyCipher).1.Err?
  {
    if BallotMap(ballot).Ok? {
      var m := BallotMap(ballot).value;
      BallotMapLast(ballot);
      LastWithIdNone(ballot, groups[g][i]);
      assert groups[g][i] !in m;
      SubBallotShape(Records(m, groups[g]), k, ops, rnd, g);
      GroupsOk(m, groups, k, ops, rnd, |groups|);
    }
  }

  // ---- Decryption with the randomness ---------------------------------------------------

  /** One slot of adderDecryptSublist: null unless g^r == G; then H / h^r
      is 1 for a 0 and f for a 1, and null otherwise. */
  function DecryptSlot(k: PublicKey, ct: Ciphertext, r: int): Option<int> {
    if Pow(k.q, k.g, r) != ct.G then None
    else
      var mPrime := Div(k.q, ct.H, Pow(k.q, k.h, r));
      if mPrime == k.f then Some(1)
      else if mPrime == One then Some(0)
      else None
  }

  /** adderDecryptSublist over the first n ciphertexts: Err where rVals.get(i)
      throws, Ok(None) where the method returns null, Ok(Some(ms)) otherwise. */
  function DecryptSublist(cs: seq<Ciphertext>, rs: seq<int>, k: PublicKey, n: nat): (r: Result<Option<seq<int>>>)
    requires n <= |cs|
    ensures r.Ok? && r.value.Some? ==> |r.value.value| == n
  {
    if n == 0 then Ok(Some([]))
    else match DecryptSublist(cs, rs, k, n - 1)
      case Err(e) => Err(e)
      case Ok(None) => Ok(None)
      case Ok(Some(ms)) =>
        if n - 1 >= |rs| then Err("IndexOutOfBoundsException")
        else match DecryptSlot(k, cs[n - 1], rs[n - 1])
          case None => Ok(None)
          case Some(m) => Ok(Some(ms + [m]))
  }

  /** Whoever holds r recovers m in {0, 1} from (g^r, h^r f^m), provided f
      is an element other than the identity. */
  lemma DecryptSlotCorrect(k: PublicKey, m: int, r: int)
    requires m == 0 || m == 1
    requires 0 <= k.f < k.q && k.f != One
    ensures DecryptSlot(k, Encrypt(k, m, r), r) == Some(m)
    ensures DecryptSlot(k, Encrypt(k, m, r), Encrypt(k, m, r).r) == Some(m)
  {
    var ct := Encrypt(k, m, r);
    EncryptOpens(k, m, r);
    MessageBase(k, m);
    PowReduce(k.q, k.g, r);
    PowReduce(k.q, k.h, r);
    SlotSameR(k, ct, r, r % k.q);
  }

  /** f^0 is the identity and f^1 is f. */
  lemma MessageBase(k: PublicKey, m: int)
    requires m == 0 || m == 1
    requires 0 <= k.f < k.q
    ensures Pow(k.q, k.f, m) == if m == 1 then k.f else One
  {
    if m == 1 {
      assert k.f * m == k.f;
      DivModUnique(k.f, k.q, 0, k.f);
    } else {
      assert k.f * m == 0;
    }
  }

  /** An exponent acts modulo q. */
  lemma PowReduce(q: Modulus, a: int, r: int)
    ensures Pow(q, a, r % q) == Pow(q, a, r)
  {
    ModMulRight(a, r, q);
  }

  /** Two exponents with equal powers of g and h open a slot alike. */
  lemma SlotSameR(k: PublicKey, ct: Ciphertext, r1: int, r2: int)
    requires Pow(k.q, k.g, r1) == Pow(k.q, k.g, r2) && Pow(k.q, k.h, r1) == Pow(k.q, k.h, r2)
    ensures DecryptSlot(k, ct, r1) == DecryptSlot(k, ct, r2)
  {
  }

  /** adderDecryptSublist with the randomness each ciphertext carries gives
      back every 0/1 message. */
  lemma {:induction false} DecryptSublistCorrect(k: PublicKey, ms: seq<int>, rs: seq<int>, n: nat)
    requires |ms| == |rs| && n <= |ms|
    requires forall i :: 0 <= i < |ms| ==> ms[i] == 0 || ms[i] == 1
    requires 0 <= k.f < k.q && k.f != One
    ensures var cs := seq(|ms|, i requires 0 <= i < |ms| => Encrypt(k, ms[i], rs[i]));
      DecryptSublist(cs, Randoms(cs), k, n) == Ok(Some(ms[..n]))
    decreases n
  {
    var cs := seq(|ms|, i requires 0 <= i < |ms| => Encrypt(k, ms[i], rs[i]));
    if n > 0 {
      DecryptSublistCorrect(k, ms, rs, n - 1);
      DecryptSlotCorrect(k, ms[n - 1], rs[n - 1]);
      assert ms[..n] == ms[..n - 1] + [ms[n - 1]];
    }
  }

  /** The sub-ballots encryptWithProof builds decrypt, with the randomness
      it kept, to their 0/1 counters. */
  lemma SubBallotDecrypts(recs: seq<Option<SExpr>>, k: PublicKey, ops: AdderOps, rnd: (nat, nat) -> int, g: nat)
    requires SubBallot(recs, k, ops, rnd, g).Ok?
    requires forall i :: 0 <= i < |Choices(recs).value.0| ==> Choices(recs).value.0[i] in {0, 1}
    requires var fk := ops.finalKey(k); 0 <= fk.f < fk.q && fk.f != One
    ensures var fk := ops.finalKey(k);
      var vs := Choices(recs).value.0;
      DecryptSublist(EncryptValues(fk, vs, rnd, g), SubBallot(recs, k, ops, rnd, g).value.1, fk, |vs|) == Ok(Some(vs))
  {
    var fk := ops.finalKey(k);
    var vs := Choices(recs).value.0;
    var rs := seq(|vs|, i requires 0 <= i < |vs| => rnd(g, i));
    assert EncryptValues(fk, vs, rnd, g) == seq(|vs|, i requires 0 <= i < |vs| => Encrypt(fk, vs[i], rs[i]));
    DecryptSublistCorrect(fk, vs, rs, |vs|);
    assert vs[..|vs|] == vs;
  }

  /** adderDecryptSublist gives up exactly on the first slot whose r does
      not open it: every slot before that decrypts. */
  lemma {:induction false} DecryptSublistNull(cs: seq<Ciphertext>, rs: seq<int>, k: PublicKey, n: nat)
    requires n <= |cs| && n <= |rs|
    ensures DecryptSublist(cs, rs, k, n).Ok?
    ensures DecryptSublist(cs, rs, k, n).value.None? <==> exists i :: 0 <= i < n && DecryptSlot(k, cs[i], rs[i]).None?
    ensures DecryptSublist(cs, rs, k, n).value.Some? ==>
      forall i :: 0 <= i < n ==> Some(DecryptSublist(cs, rs, k, n).value.value[i]) == DecryptSlot(k, cs[i], rs[i])
    decreases n
  {
    if n > 0 {
      DecryptSublistNull(cs, rs, k, n - 1);
    }
  }

  // ---- decrypt: the shape and uid checks ----------------------------------------

  /** One (uid (c1 c2)) record decrypted with its (uid r) record; dec stands
      for ElGamalCrypto.decrypt under the key. Each number is read as soon
      as it is fetched: r, then c1, then c2. */
  function DecryptPair(b: SExpr, rv: SExpr, dec: (int, int, int) -> int): Result<SExpr> {
    if !b.Lst? || !rv.Lst? then Err("ClassCastException")
    else if |b.items| == 0 || |rv.items| == 0 then Err("IndexOutOfBoundsException")
    else if b.items[0] != rv.items[0] then Err("incorrect set of r-values: uids do not match")
    else if |rv.items| < 2 then Err("IndexOutOfBoundsException")
    else if !rv.items[1].Str? then Err("ClassCastException")
    else match ParseBigInteger(rv.items[1].s)
      case None => Err("NumberFormatException")
      case Some(r) =>
        if |b.items| < 2 then Err("IndexOutOfBoundsException")
        else if !b.items[1].Lst? then Err("ClassCastException")
        else if |b.items[1].items| < 1 then Err("IndexOutOfBoundsException")
        else match ParseBigInteger(SExp.ToString(b.items[1].items[0]))
          case None => Err("NumberFormatException")
          case Some(c1) =>
            if |b.items[1].items| < 2 then Err("IndexOutOfBoundsException")
            else match ParseBigInteger(SExp.ToString(b.items[1].items[1]))
              case None => Err("NumberFormatException")
              case Some(c2) => Ok(Lst([b.items[0], Str(IntToString(dec(r, c1, c2)))]))
  }

  /** A cipher text that is not a number throws NumberFormatException, even
      when the record holds only one: c1 is read before c2 is fetched. */
  lemma DecryptPairReadsC1First(u: SExpr, x: SExpr, t: string, dec: (int, int, int) -> int)
    requires ParseBigInteger(t).Some? && ParseBigInteger(SExp.ToString(x)).None?
    ensures DecryptPair(Lst([u, Lst([x])]), Lst([u, Str(t)]), dec) == Err("NumberFormatException")
  {
  }

  /** The iterator loop of decrypt over the first n record pairs. */
  function DecryptPairs(ballot: seq<SExpr>, rVals: seq<SExpr>, dec: (int, int, int) -> int, n: nat): (r: Result<seq<SExpr>>)
    requires n <= |ballot| && n <= |rVals|
    ensures r.Ok? ==> |r.value| == n
  {
    if n == 0 then Ok([])
    else match DecryptPairs(ballot, rVals, dec, n - 1)
      case Err(e) => Err(e)
      case Ok(ps) =>
        match DecryptPair(ballot[n - 1], rVals[n - 1], dec)
        case Err(e) => Err(e)
        case Ok(p) => Ok(ps + [p])
  }

  /** decrypt(ballot, rVals, key): the size check, the ballot pattern on
      both lists, then one decrypted (uid counter) pair per record. */
  function DecryptSpec(ballot: seq<SExpr>, rVals: seq<SExpr>, pattern: SExpr -> bool, dec: (int, int, int) -> int)
    : Result<seq<SExpr>>
  {
    if |ballot| != |rVals| then Err("sizes must match")
    else if !pattern(Lst(ballot)) then Err("ballot incorrectly formatted")
    else if !pattern(Lst(rVals)) then Err("r-vals incorrectly formatted")
    else DecryptPairs(ballot, rVals, dec, |ballot|)
  }

  lemma {:induction false} DecryptPairsOk(ballot: seq<SExpr>, rVals: seq<SExpr>, dec: (int, int, int) -> int, n: nat)
    requires n <= |ballot| && n <= |rVals|
    ensures DecryptPairs(ballot, rVals, dec, n).Ok? <==> forall i :: 0 <= i < n ==> DecryptPair(ballot[i], rVals[i], dec).Ok?
    decreases n
  {
    if n > 0 {
      DecryptPairsOk(ballot, rVals, dec, n - 1);
    }
  }

  lemma {:induction false} DecryptPairsValues(ballot: seq<SExpr>, rVals: seq<SExpr>, dec: (int, int, int) -> int, n: nat)
    requires n <= |ballot| && n <= |rVals| && DecryptPairs(ballot, rVals, dec, n).Ok?
    ensures forall i :: 0 <= i < n ==>
      DecryptPair(ballot[i], rVals[i], dec).Ok? && DecryptPairs(ballot, rVals, dec, n).value[i] == DecryptPair(ballot[i], rVals[i], dec).value
    decreases n
  {
    if n > 0 {
      var prev := DecryptPairs(ballot, rVals, dec, n - 1);
      assert prev.Ok?;
      DecryptPairsValues(ballot, rVals, dec, n - 1);
      var last := DecryptPair(ballot[n - 1], rVals[n - 1], dec);
      assert last.Ok?;
      var all := DecryptPairs(ballot, rVals, dec, n).value;
      assert all == prev.value + [last.value];
      forall i | 0 <= i < n
        ensures DecryptPair(ballot[i], rVals[i], dec).Ok? && all[i] == DecryptPair(ballot[i], rVals[i], dec).value
      {
        if i < n - 1 {
          assert all[i] == prev.value[i];
        }
      }
    }
  }

  /** decrypt succeeds only on lists of equal size whose records carry the
      same uid at every position; the result keeps that uid order, one
      decrypted pair per record. */
  lemma DecryptKeepsUids(ballot: seq<SExpr>, rVals: seq<SExpr>, pattern: SExpr -> bool, dec: (int, int, int) -> int)
    requires DecryptSpec(ballot, rVals, pattern, dec).Ok?
    ensures |ballot| == |rVals| && |DecryptSpec(ballot, rVals, pattern, dec).value| == |ballot|
    ensures forall i :: 0 <= i < |ballot| ==>
      ballot[i].Lst? && rVals[i].Lst? && |ballot[i].items| >= 2 && |rVals[i].items| >= 2 &&
      ballot[i].items[0] == rVals[i].items[0] &&
      DecryptSpec(ballot, rVals, pattern, dec).value[i].Lst? &&
      |DecryptSpec(ballot, rVals, pattern, dec).value[i].items| == 2 &&
      DecryptSpec(ballot, rVals, pattern, dec).value[i].items[0] == ballot[i].items[0]
  {
    DecryptPairsValues(ballot, rVals, dec, |ballot|);
  }

  /** A uid mismatch at any position makes decrypt fail. */
  lemma DecryptUidMismatch(ballot: seq<SExpr>, rVals: seq<SExpr>, pattern: SExpr -> bool, dec: (int, int, int) -> int, i: nat)
    requires i < |ballot| && i < |rVals|
    requires ballot[i].Lst? && rVals[i].Lst? && |ballot[i].items| >= 1 && |rVals[i].items| >= 1
    requires ballot[i].items[0] != rVals[i].items[0]
    ensures DecryptSpec(ballot, rVals, pattern, dec).Err?
  {
    if |ballot| == |rVals| && pattern(Lst(ballot)) && pattern(Lst(rVals)) {
      DecryptPairsOk(ballot, rVals, dec, |ballot|);
    }
  }

  // ---- parseIds and toTraditionalFormat ------------------------------------------

  /** parseIds(ids): ids split at single spaces, every '(' and ')' removed
      from each piece. */
  lemma {:induction false} RemoveCharKeeps(s: string, c: char)
    ensures forall x :: x in RemoveChar(s, c) ==> x in s
    decreases |s|
  {
    if |s| > 0 {
      RemoveCharKeeps(s[1..], c);
      assert s == [s[0]] + s[1..];
    }
  }

  /** One id piece with its parentheses removed (the two replaceAll calls). */
  function StripParens(w: string): (r: string)
    ensures '(' !in r && ')' !in r
    ensures forall x :: x in r ==> x in w
  {
    var a := RemoveChar(w, '(');
    RemoveCharKeeps(w, '(');
    RemoveCharKeeps(a, ')');
    RemoveChar(a, ')')
  }

  function ParseIds(ids: string): (r: seq<string>)
    ensures |r| == |Split(ids, ' ')|
    ensures forall i :: 0 <= i < |r| ==> '(' !in r[i] && ')' !in r[i]
  {
    var strs := Split(ids, ' ');
    seq(|strs|, i requires 0 <= i < |strs| => StripParens(strs[i]))
  }

  /** An id that survives the vote-ids round trip: no space and no parenthesis. */
  predicate PlainId(w: string) {
    ' ' !in w && '(' !in w && ')' !in w
  }

  function Atoms(ws: seq<string>): (es: seq<SExpr>)
    ensures |es| == |ws| && forall i :: 0 <= i < |ws| ==> es[i] == Str(ws[i])
  {
    seq(|ws|, i requires 0 <= i < |ws| => Str(ws[i]))
  }

  lemma AtomsText(ws: seq<string>)
    ensures SExp.ToString(Lst(Atoms(ws))) == "(" + Join(' ', ws) + ")"
  {
    var es := Atoms(ws);
    assert seq(|es|, i requires 0 <= i < |es| => SExp.ToString(es[i])) == ws;
  }

  lemma RemoveOne(c: char)
    ensures RemoveChar([c], c) == ""
  {
    assert [c][1..] == "";
  }

  lemma RemoveOther(c: char, d: char)
    requires c != d
    ensures RemoveChar([c], d) == [c]
  {
  }

  lemma RemoveParensPlain(w: string)
    requires PlainId(w)
    ensures StripParens(w) == w
  {
  }

  lemma RemoveParensFront(w: string)
    requires PlainId(w)
    ensures StripParens("(" + w) == w
  {
    RemoveCharAppend("(", w, '(');
    RemoveOne('(');
    assert "" + w == w;
  }

  lemma RemoveParensBack(w: string)
    requires PlainId(w)
    ensures StripParens(w + ")") == w
  {
    RemoveCharAppend(w, ")", '(');
    RemoveOther(')', '(');
    RemoveCharAppend(w, ")", ')');
    RemoveOne(')');
    assert w + "" == w;
  }

  lemma RemoveParensBoth(w: string)
    requires PlainId(w)
    ensures StripParens("(" + w + ")") == w
  {
    assert "(" + w + ")" == "(" + (w + ")");
    RemoveCharAppend("(", w + ")", '(');
    RemoveOne('(');
    assert "" + RemoveChar(w + ")", '(') == RemoveChar(w + ")", '(');
    RemoveParensBack(w);
  }

  lemma SliceLast<T>(ws: seq<T>)
    requires |ws| >= 2
    ensures ws[1..] == ws[1..|ws| - 1] + [ws[|ws| - 1]]
  {
  }

  lemma TailOf<T>(x: T, m: seq<T>, y: T)
    ensures ([x] + m + [y])[1..] == m + [y]
  {
  }

  lemma Wrap(a: string, b: string)
    ensures "(" + (a + [' '] + b) + ")" == ("(" + a) + [' '] + (b + ")")
  {
  }

  /** A list's parentheses lie on its first and last pieces. */
  lemma JoinWrap(ws: seq<string>)
    requires |ws| >= 2
    ensures "(" + Join(' ', ws) + ")" == Join(' ', ["(" + ws[0]] + ws[1..|ws| - 1] + [ws[|ws| - 1] + ")"])
  {
    var mid := ws[1..|ws| - 1];
    var last := ws[|ws| - 1];
    var xs := ["(" + ws[0]] + mid + [last + ")"];
    SliceLast(ws);
    TailOf(xs[0], mid, last + ")");
    var t := Join(' ', ws[1..]);
    JoinReplaceLast(mid, last);
    assert Join(' ', xs[1..]) == t + ")";
    calc {
      "(" + Join(' ', ws) + ")";
      "(" + (ws[0] + [' '] + t) + ")";
      { Wrap(ws[0], t); }
      ("(" + ws[0]) + [' '] + (t + ")");
      xs[0] + [' '] + Join(' ', xs[1..]);
      Join(' ', xs);
    }
  }

  /** Join with the last piece given a ')' suffix. */
  lemma {:induction false} JoinReplaceLast(mid: seq<string>, w: string)
    ensures Join(' ', mid + [w]) + ")" == Join(' ', mid + [w + ")"])
    decreases |mid|
  {
    if |mid| > 0 {
      assert (mid + [w])[1..] == mid[1..] + [w];
      assert (mid + [w + ")"])[1..] == mid[1..] + [w + ")"];
      JoinReplaceLast(mid[1..], w);
      assert Join(' ', mid + [w]) == mid[0] + [' '] + Join(' ', mid[1..] + [w]);
    }
  }

  /** The pieces of the text of a list of at least two atoms. */
  function Wrapped(ws: seq<string>): (r: seq<string>)
    requires |ws| >= 2
    ensures |r| == |ws|
  {
    ["(" + ws[0]] + ws[1..|ws| - 1] + [ws[|ws| - 1] + ")"]
  }

  lemma WrappedAt<T>(x: T, m: seq<T>, y: T, i: nat)
    requires i < |m| + 2
    ensures ([x] + m + [y])[i] == if i == 0 then x else if i == |m| + 1 then y else m[i - 1]
  {
  }

  /** Removing the parentheses from the pieces gives the atoms back. */
  lemma StripWrapped(ws: seq<string>)
    requires |ws| >= 2
    requires forall i :: 0 <= i < |ws| ==> PlainId(ws[i])
    ensures forall i :: 0 <= i < |ws| ==> ' ' !in Wrapped(ws)[i] && StripParens(Wrapped(ws)[i]) == ws[i]
  {
    forall i | 0 <= i < |ws|
      ensures ' ' !in Wrapped(ws)[i] && StripParens(Wrapped(ws)[i]) == ws[i]
    {
      WrappedAt("(" + ws[0], ws[1..|ws| - 1], ws[|ws| - 1] + ")", i);
      if i == 0 {
        RemoveParensFront(ws[0]);
      } else if i == |ws| - 1 {
        RemoveParensBack(ws[|ws| - 1]);
      } else {
        RemoveParensPlain(ws[i]);
      }
    }
  }

  /** ParseIds of a text whose space-separated pieces strip to ws. */
  lemma ParseIdsOfPieces(s: string, ws: seq<string>)
    requires |Split(s, ' ')| == |ws|
    requires forall i :: 0 <= i < |ws| ==> StripParens(Split(s, ' ')[i]) == ws[i]
    ensures ParseIds(s) == ws
  {
  }

  /** parseIds reads back the ids of a vote-ids list: the text of a list of
      atoms, split at spaces with the parentheses dropped. */
  lemma ParseIdsOfList(ws: seq<string>)
    requires |ws| >= 1
    requires forall i :: 0 <= i < |ws| ==> PlainId(ws[i])
    ensures ParseIds(SExp.ToString(Lst(Atoms(ws)))) == ws
  {
    AtomsText(ws);
    var s := "(" + Join(' ', ws) + ")";
    if |ws| == 1 {
      assert Join(' ', ws) == ws[0];
      assert ' ' !in s;
      RemoveParensBoth(ws[0]);
      assert Split(s, ' ') == [s];
      ParseIdsOfPieces(s, ws);
    } else {
      var pieces := Wrapped(ws);
      JoinWrap(ws);
      StripWrapped(ws);
      SplitAllJoin(' ', pieces);
      JoinHasSeparator(' ', pieces);
      assert pieces[|pieces| - 1] != "" by {
        WrappedAt("(" + ws[0], ws[1..|ws| - 1], ws[|ws| - 1] + ")", |ws| - 1);
      }
      assert Split(s, ' ') == pieces;
      ParseIdsOfPieces(s, ws);
    }
  }

  /** The rows toTraditionalFormat emits for one map entry: one (id
      plaintext) list per parsed id; a null entry throws at the first id,
      so only when there is one, and too few plaintexts throw. */
  function KeyRows(ids: string, pl: Option<seq<int>>, ai: Codec<int>): Result<seq<SExpr>> {
    if |ParseIds(ids)| == 0 then Ok([])
    else match pl
      case None => Err("NullPointerException")
      case Some(xs) => PairRows(ParseIds(ids), xs, ai)
  }

  /** Each id paired with the plaintext at its position; too few plaintexts
      throws. */
  function PairRows(idList: seq<string>, xs: seq<int>, ai: Codec<int>): Result<seq<SExpr>> {
    if |xs| < |idList| then Err("IndexOutOfBoundsException")
    else Ok(seq(|idList|, i requires 0 <= i < |idList| => Lst([Str(idList[i]), ai.enc(xs[i])])))
  }

  /** toTraditionalFormat over the keys visited so far, in the order given:
      the rows depend on the HashMap's iteration order, which the model
      receives as a parameter. */
  function Traditional(order: seq<string>, m: map<string, Option<seq<int>>>, ai: Codec<int>): Result<seq<SExpr>>
    requires forall i :: 0 <= i < |order| ==> order[i] in m
  {
    if |order| == 0 then Ok([])
    else match Traditional(order[..|order| - 1], m, ai)
      case Err(e) => Err(e)
      case Ok(rows) =>
        match KeyRows(order[|order| - 1], m[order[|order| - 1]], ai)
        case Err(e) => Err(e)
        case Ok(more) => Ok(rows + more)
  }

  /** The rows of an entry keyed by the text of a vote-ids list pair each id
      with its plaintext, in id order. */
  lemma KeyRowsOfList(ws: seq<string>, xs: seq<int>, ai: Codec<int>)
    requires |ws| >= 1 && forall i :: 0 <= i < |ws| ==> PlainId(ws[i])
    requires |xs| >= |ws|
    ensures KeyRows(SExp.ToString(Lst(Atoms(ws))), Some(xs), ai)
      == Ok(seq(|ws|, i requires 0 <= i < |ws| => Lst([Str(ws[i]), ai.enc(xs[i])])))
  {
    ParseIdsOfList(ws);
  }

  /** toTraditionalFormat succeeds exactly when every entry has a plaintext
      list at least as long as its id list, and then emits the rows of the
      keys in order. */
  lemma {:induction false} TraditionalRows(order: seq<string>, m: map<string, Option<seq<int>>>, ai: Codec<int>)
    requires forall i :: 0 <= i < |order| ==> order[i] in m
    ensures Traditional(order, m, ai).Ok? <==> forall i :: 0 <= i < |order| ==> KeyRows(order[i], m[order[i]], ai).Ok?
    ensures Traditional(order, m, ai).Ok? && |order| > 0 ==>
      Traditional(order, m, ai).value ==
        Traditional(order[..|order| - 1], m, ai).value + KeyRows(order[|order| - 1], m[order[|order| - 1]], ai).value
    decreases |order|
  {
    if |order| > 0 {
      var init := order[..|order| - 1];
      TraditionalRows(init, m, ai);
      assert forall i :: 0 <= i < |init| ==> init[i] == order[i];
    }
  }

  // ---- getRecentRandom ---------------------------------------------------------

  /** getRecentRandom(): the uid of each recent record paired with the
      randomness at the same position. */
  function RecentRandom(rb: Option<seq<SExpr>>, rl: Option<seq<int>>): Result<seq<SExpr>> {
    if rb.None? || rl.None? then Err("NullPointerException")
    else RecentPairs(rb.value, rl.value, |rb.value|)
  }

  function RecentPairs(recs: seq<SExpr>, rs: seq<int>, n: nat): (r: Result<seq<SExpr>>)
    requires n <= |recs|
    ensures r.Ok? ==> |r.value| == n
  {
    if n == 0 then Ok([])
    else match RecentPairs(recs, rs, n - 1)
      case Err(e) => Err(e)
      case Ok(ps) =>
        var b := recs[n - 1];
        if !b.Lst? then Err("ClassCastException")
        else if n - 1 >= |rs| then Err("NoSuchElementException")
        else if |b.items| == 0 then Err("IndexOutOfBoundsException")
        else Ok(ps + [Lst([b.items[0], Str(IntToString(rs[n - 1]))])])
  }

  /** getRecentRandom succeeds exactly when both fields are set, every recent
      record is a nonempty list and there is a random value for each; entry
      i then pairs record i's uid with random value i. */
  lemma {:induction false} RecentPairsOk(recs: seq<SExpr>, rs: seq<int>, n: nat)
    requires n <= |recs|
    ensures RecentPairs(recs, rs, n).Ok? <==>
      n <= |rs| && forall i :: 0 <= i < n ==> recs[i].Lst? && |recs[i].items| >= 1
    ensures RecentPairs(recs, rs, n).Ok? ==> forall i :: 0 <= i < n ==>
      RecentPairs(recs, rs, n).value[i] == Lst([recs[i].items[0], Str(IntToString(rs[i]))])
    decreases n
  {
    if n > 0 {
      RecentPairsOk(recs, rs, n - 1);
    }
  }

  // ---- The class ---------------------------------------------------------------

  /** The encrypter singleton: the most recent ballot, the randomness of the
      most recent plain encryption and that of the most recent encryption
      with proofs. Null fields are None. */
  class BallotEncrypter {
    var recentBallot: Option<seq<SExpr>>
    var randomList: Option<seq<int>>
    var adderRandom: Option<seq<seq<int>>>

    /** The private constructor leaves every field null. */
    constructor ()
      ensures recentBallot.None? && randomList.None? && adderRandom.None?
    {
      recentBallot, randomList, adderRandom := None, None, None;
    }

    /** getRecentAdderRandom(). */
    function RecentAdderRandom(): Option<seq<seq<int>>>
      reads this
    {
      adderRandom
    }

    /** getRecentEncryptedBallot(). */
    function RecentEncryptedBallot(): Option<SExpr>
      reads this
    {
      if recentBallot.Some? then Some(Lst(recentBallot.value)) else None
    }

    /** clear(): both recent values null and an empty randomness list. */
    method Clear()
      modifies this
      ensures recentBallot.None? && randomList.None? && adderRandom == Some([])
    {
      recentBallot := None;
      randomList := None;
      adderRandom := Some([]);
    }

    /** encryptWithProof(ballot, raceGroups, pubKey), with the randomness of
        slot i of group g given as rnd(g, i) and with the encrypted write-in
        key's s-expression given. */
    method EncryptWithProof(ballot: seq<SExpr>, raceGroups: seq<seq<string>>, k: PublicKey, ops: AdderOps,
                            rnd: (nat, nat) -> int, keyCipher: SExpr) returns (r: Result<SExpr>)
      modifies this
      ensures adderRandom == Some(EncryptSpec(ballot, raceGroups, k, ops, rnd, keyCipher).0)
      ensures r == EncryptSpec(ballot, raceGroups, k, ops, rnd, keyCipher).1
      ensures recentBallot == (if r.Ok? then Some(r.value.items) else old(recentBallot))
      ensures randomList == old(randomList)
    {
      adderRandom := Some([]);
      var bm := BuildBallotMap(ballot);
      if bm.Err? {
        return Err(bm.error);
      }
      var m := bm.value;
      var subBallots: seq<SExpr> := [];
      var g := 0;
      while g < |raceGroups|
        invariant 0 <= g <= |raceGroups|
        invariant adderRandom.Some?
        invariant Groups(m, raceGroups, k, ops, rnd, g) == (adderRandom.value, Ok(subBallots))
        invariant recentBallot == old(recentBallot) && randomList == old(randomList)
      {
        var races := LookupAll(m, raceGroups[g]);
        var sb := EncryptSubBallot(races, k, ops, rnd, g);
        if sb.Err? {
          GroupsErrStays(m, raceGroups, k, ops, rnd, g + 1, |raceGroups|);
          return Err(sb.error);
        }
        subBallots := subBallots + [sb.value];
        g := g + 1;
      }
      subBallots := subBallots + [keyCipher];
      recentBallot := Some(subBallots);
      return Ok(Lst(subBallots));
    }

    /** encryptSubBallotWithProof for race group g: appends the group's
        randomness list when it succeeds. */
    method EncryptSubBallot(recs: seq<Option<SExpr>>, k: PublicKey, ops: AdderOps, rnd: (nat, nat) -> int, g: nat)
      returns (r: Result<SExpr>)
      requires adderRandom.Some?
      modifies this
      ensures SubBallot(recs, k, ops, rnd, g).Err? ==> r.Err? && r.error == SubBallot(recs, k, ops, rnd, g).error && adderRandom == old(adderRandom)
      ensures SubBallot(recs, k, ops, rnd, g).Ok? ==>
        (r == Ok(SubBallot(recs, k, ops, rnd, g).value.0) &&
         adderRandom == Some(old(adderRandom.value) + [SubBallot(recs, k, ops, rnd, g).value.1]))
      ensures recentBallot == old(recentBallot) && randomList == old(randomList)
    {
      var ch := ReadChoices(recs);
      if ch.Err? {
        return Err(ch.error);
      }
      var value, valueIds := ch.value.0, ch.value.1;
      var finalPubKey := ops.finalKey(k);
      var ciphers := EncryptValues(finalPubKey, value, rnd, g);
      var subRandom: seq<int> := [];
      var i := 0;
      while i < |ciphers|
        invariant 0 <= i <= |ciphers|
        invariant subRandom == Randoms(ciphers[..i])
      {
        subRandom := subRandom + [ciphers[i].r];
        i := i + 1;
      }
      assert ciphers[..|ciphers|] == ciphers;
      adderRandom := Some(adderRandom.value + [subRandom]);
      var outASE := Votes.ToASE(Votes.Vote(ciphers), ops.cipherCodec);
      var vList := Lst([Str("vote"), outASE]);
      var idList := Lst([Str("vote-ids"), Lst(valueIds)]);
      var pList := Lst([Str("proof"), ops.proofASE(ciphers, finalPubKey, value)]);
      var kList := Lst([Str("public-key"), ops.keyASE(finalPubKey)]);
      return Ok(Lst([vList, idList, pList, kList]));
    }

    /** getRecentRandom(). */
    method RecentRandomList() returns (r: Result<SExpr>)
      ensures RecentRandom(recentBallot, randomList).Ok? ==> r == Ok(Lst(RecentRandom(recentBallot, randomList).value))
      ensures RecentRandom(recentBallot, randomList).Err? ==> r.Err?
    {
      if recentBallot.None? || randomList.None? {
        return Err("NullPointerException");
      }
      var recs, rs := recentBallot.value, randomList.value;
      var pairs: seq<SExpr> := [];
      var i := 0;
      while i < |recs|
        invariant 0 <= i <= |recs|
        invariant RecentPairs(recs, rs, i) == Ok(pairs)
      {
        var b := recs[i];
        if !b.Lst? || i >= |rs| || |b.items| == 0 {
          RecentPairsErrStays(recs, rs, i + 1, |recs|);
          return Err("getRecentRandom failed");
        }
        pairs := pairs + [Lst([b.items[0], Str(IntToString(rs[i]))])];
        i := i + 1;
      }
      return Ok(Lst(pairs));
    }
  }

  lemma {:induction false} GroupsErrStays(m: map<string, SExpr>, groups: seq<seq<string>>, k: PublicKey, ops: AdderOps,
                                          rnd: (nat, nat) -> int, i: nat, n: nat)
    requires i <= n <= |groups| && Groups(m, groups, k, ops, rnd, i).1.Err?
    ensures Groups(m, groups, k, ops, rnd, n) == Groups(m, groups, k, ops, rnd, i)
    decreases n
  {
    if i < n {
      GroupsErrStays(m, groups, k, ops, rnd, i, n - 1);
    }
  }

  lemma {:induction false} RecentPairsErrStays(recs: seq<SExpr>, rs: seq<int>, i: nat, n: nat)
    requires i <= n <= |recs| && RecentPairs(recs, rs, i).Err?
    ensures RecentPairs(recs, rs, n).Err?
    decreases n
  {
    if i < n {
      RecentPairsErrStays(recs, rs, i, n - 1);
    }
  }

  /** The loop filling the id -> record map. */
  method BuildBallotMap(ballot: seq<SExpr>) returns (r: Result<map<string, SExpr>>)
    ensures r == BallotMap(ballot)
  {
    var m: map<string, SExpr> := map[];
    var i := 0;
    while i < |ballot|
      invariant 0 <= i <= |ballot|
      invariant BallotMap(ballot[..i]) == Ok(m)
    {
      assert ballot[..i + 1][..i] == ballot[..i];
      var vote := ballot[i];
      if !vote.Lst? {
        BallotMapErrStays(ballot, i + 1);
        return Err("ClassCastException");
      }
      if |vote.items| == 0 {
        BallotMapErrStays(ballot, i + 1);
        return Err("IndexOutOfBoundsException");
      }
      var id := SExp.ToString(vote.items[0]);
      m := m[id := vote];
      i := i + 1;
    }
    assert ballot[..|ballot|] == ballot;
    return Ok(m);
  }

  lemma {:induction false} BallotMapErrStays(ballot: seq<SExpr>, i: nat)
    requires i <= |ballot| && BallotMap(ballot[..i]).Err?
    ensures BallotMap(ballot) == BallotMap(ballot[..i])
    decreases |ballot| - i
  {
    if i < |ballot| {
      assert ballot[..i + 1][..i] == ballot[..i];
      BallotMapErrStays(ballot, i + 1);
    } else {
      assert ballot[..i] == ballot;
    }
  }

  /** The inner loop of encryptWithProof: each id of the group looked up. */
  method LookupAll(m: map<string, SExpr>, group: seq<string>) returns (races: seq<Option<SExpr>>)
    ensures races == Records(m, group)
  {
    races := [];
    var i := 0;
    while i < |group|
      invariant 0 <= i <= |group|
      invariant races == Records(m, group[..i])
    {
      races := races + [if group[i] in m then Some(m[group[i]]) else None];
      i := i + 1;
    }
    assert group[..|group|] == group;
  }

  /** The record loop of encryptSubBallotWithProof. */
  method ReadChoices(recs: seq<Option<SExpr>>) returns (r: Result<(seq<int>, seq<SExpr>)>)
    ensures r == Choices(recs)
  {
    var value: seq<int> := [];
    var valueIds: seq<SExpr> := [];
    var i := 0;
    while i < |recs|
      invariant 0 <= i <= |recs|
      invariant Choices(recs[..i]) == Ok((value, valueIds))
    {
      assert recs[..i + 1][..i] == recs[..i];
      var c := Choice(recs[i]);
      if c.Err? {
        ChoicesErrStays(recs, i + 1);
        return Err(c.error);
      }
      value := value + [c.value.0];
      valueIds := valueIds + [c.value.1];
      i := i + 1;
    }
    assert recs[..|recs|] == recs;
    return Ok((value, valueIds));
  }

  lemma {:induction false} ChoicesErrStays(recs: seq<Option<SExpr>>, i: nat)
    requires i <= |recs| && Choices(recs[..i]).Err?
    ensures Choices(recs) == Choices(recs[..i])
    decreases |recs| - i
  {
    if i < |recs| {
      assert recs[..i + 1][..i] == recs[..i];
      ChoicesErrStays(recs, i + 1);
    } else {
      assert recs[..i] == recs;
    }
  }

  /** adderDecryptSublist(vote, rVals, key). */
  method AdderDecryptSublist(v: Votes.Vote, rVals: seq<int>, k: PublicKey) returns (r: Result<Option<seq<int>>>)
    ensures r == DecryptSublist(v.ciphers, rVals, k, |v.ciphers|)
  {
    var ciphers := v.ciphers;
    var ret: seq<int> := [];
    var i := 0;
    while i < |ciphers|
      invariant 0 <= i <= |ciphers|
      invariant DecryptSublist(ciphers, rVals, k, i) == Ok(Some(ret))
    {
      if i >= |rVals| {
        DecryptSublistStops(ciphers, rVals, k, i + 1, |ciphers|);
        return Err("IndexOutOfBoundsException");
      }
      var rv := rVals[i];
      var cipher := ciphers[i];
      if Pow(k.q, k.g, rv) != cipher.G {
        DecryptSublistStops(ciphers, rVals, k, i + 1, |ciphers|);
        return Ok(None);
      }
      var mPrime := Div(k.q, cipher.H, Pow(k.q, k.h, rv));
      var m: Option<int> := None;
      if mPrime == One {
        m := Some(0);
      }
      if mPrime == k.f {
        m := Some(1);
      }
      if m.None? {
        DecryptSublistStops(ciphers, rVals, k, i + 1, |ciphers|);
        return Ok(None);
      }
      ret := ret + [m.value];
      i := i + 1;
    }
    return Ok(Some(ret));
  }

  lemma {:induction false} DecryptSublistStops(cs: seq<Ciphertext>, rs: seq<int>, k: PublicKey, i: nat, n: nat)
    requires i <= n <= |cs|
    requires DecryptSublist(cs, rs, k, i).Err? || DecryptSublist(cs, rs, k, i) == Ok(None)
    ensures DecryptSublist(cs, rs, k, n) == DecryptSublist(cs, rs, k, i)
    decreases n
  {
    if i < n {
      DecryptSublistStops(cs, rs, k, i, n - 1);
    }
  }

  /** decrypt(ballot, rVals, publicKey), dec standing for
      ElGamalCrypto.decrypt under the key and pattern for
      Ballot.BALLOT_PATTERN. */
  method Decrypt(ballot: seq<SExpr>, rVals: seq<SExpr>, pattern: SExpr -> bool, dec: (int, int, int) -> int)
    returns (r: Result<SExpr>)
    ensures DecryptSpec(ballot, rVals, pattern, dec).Ok? ==> r == Ok(Lst(DecryptSpec(ballot, rVals, pattern, dec).value))
    ensures DecryptSpec(ballot, rVals, pattern, dec).Err? ==> r == Err(DecryptSpec(ballot, rVals, pattern, dec).error)
  {
    if |ballot| != |rVals| {
      return Err("sizes must match");
    }
    if !pattern(Lst(ballot)) {
      return Err("ballot incorrectly formatted");
    }
    if !pattern(Lst(rVals)) {
      return Err("r-vals incorrectly formatted");
    }
    var decryptedpairs: seq<SExpr> := [];
    var i := 0;
    while i < |ballot|
      invariant 0 <= i <= |ballot|
      invariant DecryptPairs(ballot, rVals, dec, i) == Ok(decryptedpairs)
    {
      var p := DecryptPair(ballot[i], rVals[i], dec);
      if p.Err? {
        DecryptPairsErrStays(ballot, rVals, dec, i + 1, |ballot|);
        return Err(p.error);
      }
      decryptedpairs := decryptedpairs + [p.value];
      i := i + 1;
    }
    return Ok(Lst(decryptedpairs));
  }

  lemma {:induction false} DecryptPairsErrStays(ballot: seq<SExpr>, rVals: seq<SExpr>, dec: (int, int, int) -> int, i: nat, n: nat)
    requires i <= n <= |ballot| && n <= |rVals| && DecryptPairs(ballot, rVals, dec, i).Err?
    ensures DecryptPairs(ballot, rVals, dec, n) == DecryptPairs(ballot, rVals, dec, i)
    decreases n
  {
    if i < n {
      DecryptPairsErrStays(ballot, rVals, dec, i, n - 1);
    }
  }

  /** parseIds(ids). */
  method ParseIdList(ids: string) returns (r: seq<string>)
    ensures r == ParseIds(ids)
  {
    var strs := Split(ids, ' ');
    r := [];
    var i := 0;
    while i < |strs|
      invariant 0 <= i <= |strs|
      invariant |r| == i && forall j :: 0 <= j < i ==> r[j] == StripParens(strs[j])
    {
      r := r + [StripParens(strs[i])];
      i := i + 1;
    }
  }

  /** The inner loop of toTraditionalFormat: one (id plaintext) row per
      parsed id of one map entry. */
  method EntryRows(ids: string, plaintexts: Option<seq<int>>, ai: Codec<int>) returns (r: Result<seq<SExpr>>)
    ensures r == KeyRows(ids, plaintexts, ai)
  {
    var idList := ParseIdList(ids);
    if |idList| == 0 {
      return Ok([]);
    }
    if plaintexts.None? {
      return Err("NullPointerException");
    }
    r := PairRowsLoop(idList, plaintexts.value, ai);
  }

  method PairRowsLoop(idList: seq<string>, xs: seq<int>, ai: Codec<int>) returns (r: Result<seq<SExpr>>)
    ensures r == PairRows(idList, xs, ai)
  {
    var rows: seq<SExpr> := [];
    var i := 0;
    while i < |idList|
      invariant 0 <= i <= |idList| && i <= |xs|
      invariant |rows| == i && forall t :: 0 <= t < i ==> rows[t] == Lst([Str(idList[t]), ai.enc(xs[t])])
    {
      if i >= |xs| {
        return Err("IndexOutOfBoundsException");
      }
      rows := rows + [Lst([Str(idList[i]), ai.enc(xs[i])])];
      i := i + 1;
    }
    assert rows == seq(|idList|, t requires 0 <= t < |idList| => Lst([Str(idList[t]), ai.enc(xs[t])]));
    return Ok(rows);
  }

  /** toTraditionalFormat(idsToPlaintext), the keys visited in the order given. */
  method ToTraditionalFormat(order: seq<string>, m: map<string, Option<seq<int>>>, ai: Codec<int>)
    returns (r: Result<SExpr>)
    requires Enumerates(m, order)
    requires forall i :: 0 <= i < |order| ==> order[i] in m
    ensures Traditional(order, m, ai).Ok? ==> r == Ok(Lst(Traditional(order, m, ai).value))
    ensures Traditional(order, m, ai).Err? ==> r.Err?
  {
    var subLists: seq<SExpr> := [];
    var j := 0;
    while j < |order|
      invariant 0 <= j <= |order|
      invariant Traditional(order[..j], m, ai) == Ok(subLists)
    {
      var prefix := order[..j + 1];
      assert prefix[..j] == order[..j] && prefix[j] == order[j];
      var rows := EntryRows(order[j], m[order[j]], ai);
      if rows.Err? {
        assert Traditional(prefix, m, ai).Err?;
        TraditionalErrStays(order, m, ai, j + 1);
        return Err(rows.error);
      }
      assert Traditional(prefix, m, ai) == Ok(subLists + rows.value);
      subLists := subLists + rows.value;
      j := j + 1;
    }
    assert order[..|order|] == order;
    return Ok(Lst(subLists));
  }

  lemma {:induction false} TraditionalErrStays(order: seq<string>, m: map<string, Option<seq<int>>>, ai: Codec<int>, i: nat)
    requires forall j :: 0 <= j < |order| ==> order[j] in m
    requires i <= |order| && Traditional(order[..i], m, ai).Err?
    ensures Traditional(order, m, ai).Err?
    decreases |order| - i
  {
    if i < |order| {
      assert order[..i + 1][..i] == order[..i];
      TraditionalErrStays(order, m, ai, i + 1);
    } else {
      assert order[..i] == order;
    }
  }
}

/** The Adder membership proof (crypto/adder/MembershipProof.java): a
    disjunctive Chaum-Pedersen proof, made non-interactive with a hash, that
    an ElGamal ciphertext encrypts one element of a small domain. The hash is
    a parameter over the transcript of group elements; the random values
    compute draws are parameters too. */
module MembershipProofs {
  import opened Wrappers
  import opened Sequences
  import opened Numeric
  import opened SExp
  import opened Group
  import opened MembershipProofCodec
  import opened JavaStrings

  // ---- The proof as functions --------------------------------------------

  /** The commitment y = g^s * G^(-c) of a slot answered by s under challenge c. */
  function CommitY(k: PublicKey, ct: Ciphertext, s: int, c: int): int {
    Mul(k.q, Pow(k.q, k.g, s), Pow(k.q, ct.G, Neg(k.q, c)))
  }

  /** The commitment z = h^s * (H / f^d)^(-c) of the slot for domain value d. */
  function CommitZ(k: PublicKey, ct: Ciphertext, d: int, s: int, c: int): int {
    Mul(k.q, Pow(k.q, k.h, s), Pow(k.q, Div(k.q, ct.H, Pow(k.q, k.f, d)), Neg(k.q, c)))
  }

  /** One pass of compute's domain loop, for domain value d at loop index i:
      the real slot commits g^t and h^t with s = c = 0 as placeholders; a fake
      slot appends the random s and c and commits to the s and c it then reads
      back at index i. */
  function Step(k: PublicKey, ct: Ciphertext, t: int, value: int, d: int, sr: int, cr: int,
                i: nat, st: ProofState): (r: ProofState)
    requires i <= |st.ss| && i <= |st.cs|
  {
    if d == value then
      st.(ys := st.ys + [Pow(k.q, k.g, t)], zs := st.zs + [Pow(k.q, k.h, t)],
          ss := st.ss + [0], cs := st.cs + [0])
    else
      var ss := st.ss + [sr];
      var cs := st.cs + [cr];
      st.(ys := st.ys + [CommitY(k, ct, ss[i], cs[i])], zs := st.zs + [CommitZ(k, ct, d, ss[i], cs[i])],
          ss := ss, cs := cs)
  }

  /** The state after the first n passes of the domain loop. */
  function Commit(k: PublicKey, ct: Ciphertext, t: int, value: int, domain: seq<int>,
                  sRand: seq<int>, cRand: seq<int>, st0: ProofState, n: nat): (st: ProofState)
    requires n <= |domain| && n <= |sRand| && n <= |cRand|
    ensures |st.ys| == |st0.ys| + n && |st.zs| == |st0.zs| + n
    ensures |st.ss| == |st0.ss| + n && |st.cs| == |st0.cs| + n
    ensures st.p == st0.p && st.q == st0.q && st.c == st0.c
  {
    if n == 0 then st0
    else
      Step(k, ct, t, value, domain[n - 1], sRand[n - 1], cRand[n - 1], n - 1,
           Commit(k, ct, t, value, domain, sRand, cRand, st0, n - 1))
  }

  lemma LastIndexSnoc(xs: seq<int>, i: nat, v: int)
    requires i < |xs|
    ensures LastIndex(xs[..i + 1], v) == if xs[i] == v then i else LastIndex(xs[..i], v)
  {
    assert xs[..i + 1][..i] == xs[..i];
  }

  /** indexInDomain: the last position holding value, 0 when there is none. */
  function LastIndex(xs: seq<int>, v: int): (r: nat)
    ensures v in xs ==> r < |xs| && xs[r] == v && forall j :: r < j < |xs| ==> xs[j] != v
    ensures v !in xs ==> r == 0
  {
    if |xs| == 0 then 0
    else if xs[|xs| - 1] == v then |xs| - 1
    else
      assert v in xs[..|xs| - 1] ==> v in xs;
      assert v in xs && xs[|xs| - 1] != v ==> v in xs[..|xs| - 1] by {
        if v in xs && xs[|xs| - 1] != v {
          var j :| 0 <= j < |xs| && xs[j] == v;
          assert xs[..|xs| - 1][j] == v;
        }
      }
      LastIndex(xs[..|xs| - 1], v)
  }

  /** y1, z1, y2, z2, ... */
  function Interleave(ys: seq<int>, zs: seq<int>): (r: seq<int>)
    requires |ys| == |zs|
    ensures |r| == 2 * |ys|
    ensures forall i :: 0 <= i < |ys| ==> r[2 * i] == ys[i] && r[2 * i + 1] == zs[i]
  {
    if |ys| == 0 then []
    else Interleave(ys[..|ys| - 1], zs[..|zs| - 1]) + [ys[|ys| - 1], zs[|zs| - 1]]
  }

  /** The elements the challenge is hashed from: g, h, G, H, then each slot's y and z. */
  function Transcript(k: PublicKey, ct: Ciphertext, ys: seq<int>, zs: seq<int>): seq<int>
    requires |ys| == |zs|
  {
    [k.g, k.h, ct.G, ct.H] + Interleave(ys, zs)
  }

  function Sum(xs: seq<int>): int {
    if |xs| == 0 then 0 else Sum(xs[..|xs| - 1]) + xs[|xs| - 1]
  }

  /** The challenge: the hash of the transcript, reduced into Z_q. */
  function Challenge(k: PublicKey, ct: Ciphertext, ys: seq<int>, zs: seq<int>, hash: seq<int> -> nat): (c: int)
    requires |ys| == |zs|
    ensures 0 <= c < k.q
  {
    hash(Transcript(k, ct, ys, zs)) % k.q
  }

  /** The end of compute, from the state st the domain loop left, the index
      of the real slot and the challenge c: realC = c minus every entry of the
      c list in Z_q, then the real slot set to s = realC * r + t and c =
      realC. The flag is false where a set throws IndexOutOfBoundsException;
      the state is then as far as compute got. */
  function Finish(st: ProofState, k: PublicKey, ct: Ciphertext, t: int, idx: nat, c: int): (ProofState, bool) {
    var realC := (c - Sum(st.cs)) % k.q;
    var st1 := st.(p := Some(k.p), q := Some(k.q), c := Some(c));
    if idx >= |st.ss| then (st1, false)
    else
      var ss := st.ss[idx := AddExp(k.q, MulExp(k.q, realC, ct.r), t)];
      if idx >= |st.cs| then (st1.(ss := ss), false)
      else (st1.(ss := ss, cs := st.cs[idx := realC]), true)
  }

  /** compute on a proof in state st0: p and q from the key, the domain loop,
      the challenge c = hash mod q, and the real slot answered. The flag is
      false only for an empty domain on a proof whose lists are empty. */
  function ComputeSpec(st0: ProofState, ct: Ciphertext, k: PublicKey, value: int, domain: seq<int>,
                       t: int, sRand: seq<int>, cRand: seq<int>, hash: seq<int> -> nat): (ProofState, bool)
    requires |sRand| == |domain| && |cRand| == |domain|
  {
    var st := Commit(k, ct, t, value, domain, sRand, cRand, st0.(p := Some(k.p), q := Some(k.q)), |domain|);
    Finish(st, k, ct, t, LastIndex(domain, value), Challenge(k, ct, st.ys[|st0.ys|..], st.zs[|st0.zs|..], hash))
  }

  /** The y of slot i as verify recomputes it. */
  function RecY(k: PublicKey, ct: Ciphertext, ss: seq<int>, cs: seq<int>, n: nat): (ys: seq<int>)
    requires n <= |ss| && n <= |cs|
  {
    seq(n, i requires 0 <= i < n => CommitY(k, ct, ss[i], cs[i]))
  }

  /** The z of slot i as verify recomputes it. */
  function RecZ(k: PublicKey, ct: Ciphertext, domain: seq<int>, ss: seq<int>, cs: seq<int>, n: nat): (zs: seq<int>)
    requires n <= |domain| && n <= |ss| && n <= |cs|
  {
    seq(n, i requires 0 <= i < n => CommitZ(k, ct, domain[i], ss[i], cs[i]))
  }

  /** verify: one slot per entry of the c list, reading domain[i] and s[i]
      (IndexOutOfBoundsException when either is shorter); true exactly when the
      c entries sum, mod q, to the hash of g, h, G, H and the recomputed
      commitments, mod q. */
  function VerifySpec(k: PublicKey, ct: Ciphertext, domain: seq<int>, ss: seq<int>, cs: seq<int>,
                      hash: seq<int> -> nat): Result<bool>
  {
    var n := |cs|;
    if n > |domain| || n > |ss| then Err("IndexOutOfBoundsException")
    else Ok(Sum(cs) % k.q == hash(Transcript(k, ct, RecY(k, ct, ss, cs, n), RecZ(k, ct, domain, ss, cs, n))) % k.q)
  }

  // ---- Properties of the proof ---------------------------------------------

  lemma {:induction false} SumUpdate(xs: seq<int>, j: nat, v: int)
    requires j < |xs|
    ensures Sum(xs[j := v]) == Sum(xs) - xs[j] + v
    decreases |xs|
  {
    var ys := xs[j := v];
    var n := |xs| - 1;
    if j < n {
      assert ys[..n] == xs[..n][j := v];
      SumUpdate(xs[..n], j, v);
    } else {
      assert ys[..n] == xs[..n];
    }
  }

  /** A fresh proof once compute has set p and q. */
  function Started(k: PublicKey): ProofState {
    Fresh.(p := Some(k.p), q := Some(k.q))
  }

  /** Slot i of a proof whose lists started empty, after the domain loop:
      a real slot (domain value equal to value) holds g^t, h^t and zero
      placeholders; a fake slot holds the random s and c and the commitments
      to them. */
  lemma {:induction false} CommitFreshAt(k: PublicKey, ct: Ciphertext, t: int, value: int, domain: seq<int>,
                                         sRand: seq<int>, cRand: seq<int>, st0: ProofState, n: nat, i: nat)
    requires st0.ys == [] && st0.zs == [] && st0.ss == [] && st0.cs == []
    requires i < n <= |domain| && n <= |sRand| && n <= |cRand|
    ensures var st := Commit(k, ct, t, value, domain, sRand, cRand, st0, n);
      if domain[i] == value then
        st.ss[i] == 0 && st.cs[i] == 0 && st.ys[i] == Pow(k.q, k.g, t) && st.zs[i] == Pow(k.q, k.h, t)
      else
        st.ss[i] == sRand[i] && st.cs[i] == cRand[i] &&
        st.ys[i] == CommitY(k, ct, sRand[i], cRand[i]) && st.zs[i] == CommitZ(k, ct, domain[i], sRand[i], cRand[i])
    decreases n
  {
    if i < n - 1 {
      CommitFreshAt(k, ct, t, value, domain, sRand, cRand, st0, n - 1, i);
    }
  }

  /** The end of compute when both sets succeed: only the real slot's s and c
      change, and p, q and c are set. */
  lemma FinishSets(st: ProofState, k: PublicKey, ct: Ciphertext, t: int, idx: nat, c: int)
    requires idx < |st.ss| && idx < |st.cs|
    ensures var realC := (c - Sum(st.cs)) % k.q;
      Finish(st, k, ct, t, idx, c) ==
        (st.(p := Some(k.p), q := Some(k.q), c := Some(c),
             ss := st.ss[idx := AddExp(k.q, MulExp(k.q, realC, ct.r), t)], cs := st.cs[idx := realC]), true)
  {
  }

  /** Answering a slot whose c placeholder is 0 makes the c list sum to the
      challenge mod q. */
  lemma FinishSum(st: ProofState, k: PublicKey, ct: Ciphertext, t: int, idx: nat, c: int)
    requires idx < |st.ss| && idx < |st.cs| && st.cs[idx] == 0 && 0 <= c < k.q
    ensures Finish(st, k, ct, t, idx, c).1
    ensures Finish(st, k, ct, t, idx, c).0.c == Some(c)
    ensures Sum(Finish(st, k, ct, t, idx, c).0.cs) % k.q == c
  {
    var realC := (c - Sum(st.cs)) % k.q;
    FinishSets(st, k, ct, t, idx, c);
    SumUpdate(st.cs, idx, realC);
    ModAddRight(Sum(st.cs), c - Sum(st.cs), k.q);
    DivModUnique(c, k.q, 0, c);
    assert Sum(st.cs) + (c - Sum(st.cs)) == c;
  }

  /** compute on a fresh proof: one entry per domain element in every list;
      p, q and c set; it completes exactly when the domain is not empty. */
  lemma ComputeFreshShape(ct: Ciphertext, k: PublicKey, value: int, domain: seq<int>,
                          t: int, sRand: seq<int>, cRand: seq<int>, hash: seq<int> -> nat)
    requires |sRand| == |domain| && |cRand| == |domain|
    ensures var (st, ok) := ComputeSpec(Fresh, ct, k, value, domain, t, sRand, cRand, hash);
      |st.ys| == |domain| && |st.zs| == |domain| && |st.ss| == |domain| && |st.cs| == |domain| &&
      st.p == Some(k.p) && st.q == Some(k.q) && st.c.Some? && 0 <= st.c.value < k.q &&
      (ok <==> |domain| > 0)
  {
  }

  /** compute changes no commitment after the domain loop: the y and z
      lists are those CommitFreshAt describes. */
  lemma ComputeKeepsCommitments(st0: ProofState, ct: Ciphertext, k: PublicKey, value: int, domain: seq<int>,
                                t: int, sRand: seq<int>, cRand: seq<int>, hash: seq<int> -> nat)
    requires |sRand| == |domain| && |cRand| == |domain|
    ensures var st := ComputeSpec(st0, ct, k, value, domain, t, sRand, cRand, hash).0;
      var st1 := Commit(k, ct, t, value, domain, sRand, cRand, st0.(p := Some(k.p), q := Some(k.q)), |domain|);
      st.ys == st1.ys && st.zs == st1.zs
  {
  }

  /** The answers of a fresh proof after compute: the slot of (the last
      occurrence of) value answers the challenge with realC = c - (sum of the
      c's the loop left) and s = realC * r + t; every other slot keeps its
      placeholders or its random s and c. */
  lemma ComputeFreshAnswers(ct: Ciphertext, k: PublicKey, value: int, domain: seq<int>,
                            t: int, sRand: seq<int>, cRand: seq<int>, hash: seq<int> -> nat, i: nat)
    requires |sRand| == |domain| && |cRand| == |domain|
    requires value in domain && i < |domain|
    ensures var st := ComputeSpec(Fresh, ct, k, value, domain, t, sRand, cRand, hash).0;
      var st1 := Commit(k, ct, t, value, domain, sRand, cRand, Started(k), |domain|);
      var j := LastIndex(domain, value);
      var realC := (st.c.value - Sum(st1.cs)) % k.q;
      (i == j ==> st.cs[i] == realC && st.ss[i] == AddExp(k.q, MulExp(k.q, realC, ct.r), t)) &&
      (i != j && domain[i] != value ==> st.ss[i] == sRand[i] && st.cs[i] == cRand[i]) &&
      (i != j && domain[i] == value ==> st.ss[i] == 0 && st.cs[i] == 0)
  {
    var st1 := Commit(k, ct, t, value, domain, sRand, cRand, Started(k), |domain|);
    var c := Challenge(k, ct, st1.ys[0..], st1.zs[0..], hash);
    var j := LastIndex(domain, value);
    CommitFreshAt(k, ct, t, value, domain, sRand, cRand, Started(k), |domain|, i);
    FinishSets(st1, k, ct, t, j, c);
  }

  /** After compute on a fresh proof with value in the domain, the c list sums
      to the challenge mod q: the real slot is c minus every fake c. */
  lemma CListSum(ct: Ciphertext, k: PublicKey, value: int, domain: seq<int>,
                 t: int, sRand: seq<int>, cRand: seq<int>, hash: seq<int> -> nat)
    requires |sRand| == |domain| && |cRand| == |domain|
    requires value in domain
    ensures var (st, ok) := ComputeSpec(Fresh, ct, k, value, domain, t, sRand, cRand, hash);
      ok && st.c.Some? && Sum(st.cs) % k.q == st.c.value
  {
    var st1 := Commit(k, ct, t, value, domain, sRand, cRand, Started(k), |domain|);
    var c := Challenge(k, ct, st1.ys[0..], st1.zs[0..], hash);
    var j := LastIndex(domain, value);
    CommitFreshAt(k, ct, t, value, domain, sRand, cRand, Started(k), |domain|, j);
    FinishSum(st1, k, ct, t, j, c);
  }

  /** The real slot's commitments, recomputed from its answer, are g^t and
      h^t again whenever B is base^r0 and r is r0 in Z_q. */
  lemma RealSlot(q: Modulus, base: int, B: int, r0: int, r: int, c: int, t: int)
    requires B % q == (base * r0) % q && r % q == r0 % q
    ensures Mul(q, Pow(q, base, AddExp(q, MulExp(q, c, r), t)), Pow(q, B, Neg(q, c))) == Pow(q, base, t)
  {
    var s := AddExp(q, MulExp(q, c, r), t);
    AnswerMod(q, c, r, r0, t);
    PowCong(q, base, s, base, c * r0 + t);
    ModOfMod(-c, q);
    PowCong(q, B, Neg(q, c), base * r0, -c);
    SumOfMods(q, base * (c * r0 + t), base * r0 * (-c));
    Cancel(base, c, r0, t);
  }

  lemma AnswerMod(q: Modulus, c: int, r: int, r0: int, t: int)
    requires r % q == r0 % q
    ensures AddExp(q, MulExp(q, c, r), t) % q == (c * r0 + t) % q
  {
    var m := MulExp(q, c, r);
    CongMul(c, r, c, r0, q);
    ModOfMod(c * r, q);
    assert m % q == (c * r0) % q;
    CongAdd(m, t, c * r0, t, q);
    ModOfMod(m + t, q);
  }

  lemma PowCong(q: Modulus, a: int, e: int, a2: int, e2: int)
    requires a % q == a2 % q && e % q == e2 % q
    ensures Pow(q, a, e) == (a2 * e2) % q
  {
    CongMul(a, e, a2, e2, q);
  }

  lemma SumOfMods(q: Modulus, u: int, v: int)
    ensures Mul(q, u % q, v % q) == (u + v) % q
  {
    ModAddLeft(u, v % q, q);
    ModAddRight(u, v, q);
  }

  lemma Cancel(b: int, c: int, r0: int, t: int)
    ensures b * (c * r0 + t) + b * r0 * (-c) == b * t
  {
    assert b * (c * r0 + t) == b * (c * r0) + b * t;
    assert b * r0 * (-c) == -(b * (c * r0));
  }

  /** H / f^value is h^r0 for an encryption of value under randomness r0. */
  lemma StripMessage(k: PublicKey, value: int, r0: int)
    ensures Div(k.q, Encrypt(k, value, r0).H, Pow(k.q, k.f, value)) % k.q == (k.h * r0) % k.q
  {
    var q := k.q;
    var hr := Pow(q, k.h, r0);
    var fm := Pow(q, k.f, value);
    SubAdd(q, fm, hr);
    assert Mul(q, hr, fm) == Mul(q, fm, hr);
    ModOfMod(k.h * r0, q);
    ModOfMod(Div(q, Encrypt(k, value, r0).H, fm), q);
  }

  /** The recomputed commitments of a fresh honest proof are the ones it hashed. */
  lemma RecomputeFresh(ct: Ciphertext, k: PublicKey, value: int, r0: int, domain: seq<int>,
                       t: int, sRand: seq<int>, cRand: seq<int>, hash: seq<int> -> nat)
    requires ct == Encrypt(k, value, r0)
    requires |sRand| == |domain| && |cRand| == |domain|
    requires value in domain
    requires forall i, j :: 0 <= i < |domain| && 0 <= j < |domain| && domain[i] == value && domain[j] == value ==> i == j
    ensures var (st, _) := ComputeSpec(Fresh, ct, k, value, domain, t, sRand, cRand, hash);
      var st1 := Commit(k, ct, t, value, domain, sRand, cRand, Started(k), |domain|);
      |st.cs| == |domain| && |st.ss| == |domain| &&
      RecY(k, ct, st.ss, st.cs, |domain|) == st1.ys && RecZ(k, ct, domain, st.ss, st.cs, |domain|) == st1.zs
  {
    var q := k.q;
    var st1 := Commit(k, ct, t, value, domain, sRand, cRand, Started(k), |domain|);
    var c := Challenge(k, ct, st1.ys[0..], st1.zs[0..], hash);
    var j := LastIndex(domain, value);
    var n := |domain|;
    var realC := (c - Sum(st1.cs)) % q;
    var sReal := AddExp(q, MulExp(q, realC, ct.r), t);
    assert ComputeSpec(Fresh, ct, k, value, domain, t, sRand, cRand, hash) == Finish(st1, k, ct, t, j, c) by {
      assert Fresh.(p := Some(k.p), q := Some(k.q)) == Started(k);
    }
    FinishSets(st1, k, ct, t, j, c);
    var st := Finish(st1, k, ct, t, j, c).0;
    assert st.ss == st1.ss[j := sReal] && st.cs == st1.cs[j := realC];
    RealSlots(k, value, r0, realC, t);
    forall i | 0 <= i < n && domain[i] != value
      ensures st1.ss[i] == sRand[i] && st1.cs[i] == cRand[i]
      ensures st1.ys[i] == CommitY(k, ct, sRand[i], cRand[i]) && st1.zs[i] == CommitZ(k, ct, domain[i], sRand[i], cRand[i])
    {
      CommitFreshAt(k, ct, t, value, domain, sRand, cRand, Started(k), n, i);
    }
    CommitFreshAt(k, ct, t, value, domain, sRand, cRand, Started(k), n, j);
    RecomputeSlots(ct, k, value, domain, t, sRand, cRand, st1.ys, st1.zs, st1.ss, st1.cs, j, sReal, realC);
  }

  /** The real slot of an encryption of value under r0, answered with
      s = realC * r + t, recomputes to g^t and h^t. */
  lemma RealSlots(k: PublicKey, value: int, r0: int, realC: int, t: int)
    ensures var ct := Encrypt(k, value, r0);
      CommitY(k, ct, AddExp(k.q, MulExp(k.q, realC, ct.r), t), realC) == Pow(k.q, k.g, t) &&
      CommitZ(k, ct, value, AddExp(k.q, MulExp(k.q, realC, ct.r), t), realC) == Pow(k.q, k.h, t)
  {
    var q := k.q;
    var ct := Encrypt(k, value, r0);
    ModOfMod(k.g * r0, q);
    ModOfMod(r0, q);
    RealSlot(q, k.g, ct.G, r0, ct.r, realC, t);
    StripMessage(k, value, r0);
    RealSlot(q, k.h, Div(q, ct.H, Pow(q, k.f, value)), r0, ct.r, realC, t);
  }

  lemma RecomputeSlots(ct: Ciphertext, k: PublicKey, value: int, domain: seq<int>, t: int,
                       sRand: seq<int>, cRand: seq<int>, ys: seq<int>, zs: seq<int>, ss: seq<int>, cs: seq<int>,
                       j: nat, sReal: int, realC: int)
    requires |sRand| == |domain| && |cRand| == |domain|
    requires |ys| == |domain| && |zs| == |domain| && |ss| == |domain| && |cs| == |domain|
    requires forall i :: 0 <= i < |domain| && domain[i] != value ==>
      ss[i] == sRand[i] && cs[i] == cRand[i] &&
      ys[i] == CommitY(k, ct, sRand[i], cRand[i]) && zs[i] == CommitZ(k, ct, domain[i], sRand[i], cRand[i])
    requires j < |domain| && domain[j] == value && ys[j] == Pow(k.q, k.g, t) && zs[j] == Pow(k.q, k.h, t)
    requires forall i :: 0 <= i < |domain| && domain[i] == value ==> i == j
    requires CommitY(k, ct, sReal, realC) == Pow(k.q, k.g, t) && CommitZ(k, ct, value, sReal, realC) == Pow(k.q, k.h, t)
    ensures RecY(k, ct, ss[j := sReal], cs[j := realC], |domain|) == ys
    ensures RecZ(k, ct, domain, ss[j := sReal], cs[j := realC], |domain|) == zs
  {
  }

  /** Completeness: an honestly computed proof that an encryption of value
      (occurring once in the domain) is in the domain verifies, with the same
      key, ciphertext, domain and hash. */
  lemma Completeness(k: PublicKey, value: int, r0: int, domain: seq<int>,
                     t: int, sRand: seq<int>, cRand: seq<int>, hash: seq<int> -> nat)
    requires |sRand| == |domain| && |cRand| == |domain|
    requires value in domain
    requires forall i, j :: 0 <= i < |domain| && 0 <= j < |domain| && domain[i] == value && domain[j] == value ==> i == j
    ensures var ct := Encrypt(k, value, r0);
      var (st, ok) := ComputeSpec(Fresh, ct, k, value, domain, t, sRand, cRand, hash);
      ok && VerifySpec(k, ct, domain, st.ss, st.cs, hash) == Ok(true)
  {
    var ct := Encrypt(k, value, r0);
    var n := |domain|;
    var st1 := Commit(k, ct, t, value, domain, sRand, cRand, Started(k), n);
    assert st1.ys[0..] == st1.ys && st1.zs[0..] == st1.zs;
    var c := Challenge(k, ct, st1.ys, st1.zs, hash);
    var j := LastIndex(domain, value);
    var res := ComputeSpec(Fresh, ct, k, value, domain, t, sRand, cRand, hash);
    assert res == Finish(st1, k, ct, t, j, c) by {
      assert Fresh.(p := Some(k.p), q := Some(k.q)) == Started(k);
    }
    FinishSets(st1, k, ct, t, j, c);
    var st := res.0;
    assert res.1 && st.c == Some(c) && |st.cs| == n && |st.ss| == n;
    RecomputeFresh(ct, k, value, r0, domain, t, sRand, cRand, hash);
    CListSum(ct, k, value, domain, t, sRand, cRand, hash);
    assert RecY(k, ct, st.ss, st.cs, n) == st1.ys && RecZ(k, ct, domain, st.ss, st.cs, n) == st1.zs;
    assert Sum(st.cs) % k.q == c;
  }

  // ---- The class -------------------------------------------------------------

  /** A MembershipProof object: the prime p, the sub-prime q, the challenge c
      and the four lists. */
  class MembershipProof {
    var p: Option<int>
    var q: Option<int>
    var c: Option<int>
    var yList: seq<int>
    var zList: seq<int>
    var sList: seq<int>
    var cList: seq<int>

    function State(): ProofState
      reads this
    {
      ProofState(p, q, c, yList, zList, sList, cList)
    }

    /** new MembershipProof(): null numbers and four empty lists. */
    constructor ()
      ensures State() == Fresh
    {
      p, q, c := None, None, None;
      yList, zList, sList, cList := [], [], [], [];
    }

    /** The private constructor from parts; c stays null. */
    constructor FromParts(p: Option<int>, q: Option<int>, ys: seq<int>, zs: seq<int>, ss: seq<int>, cs: seq<int>)
      ensures State() == ProofState(p, q, None, ys, zs, ss, cs)
    {
      this.p, this.q, this.c := p, q, None;
      yList, zList, sList, cList := ys, zs, ss, cs;
    }

    /** compute(ciphertext, pubKey, value, domain) with t, the fake s values
        and the fake c values drawn beforehand, one per domain element. ok is
        false where the final set throws. */
    method Compute(ct: Ciphertext, k: PublicKey, value: int, domain: seq<int>,
                   t: int, sRand: seq<int>, cRand: seq<int>, hash: seq<int> -> nat) returns (ok: bool)
      requires |sRand| == |domain| && |cRand| == |domain|
      modifies this
      ensures (State(), ok) == ComputeSpec(old(State()), ct, k, value, domain, t, sRand, cRand, hash)
    {
      p := Some(k.p);
      q := Some(k.q);
      ghost var st0 := State();
      var indexInDomain, tr := CommitAll(ct, k, value, domain, t, sRand, cRand);
      ghost var stC := State();
      var challenge := hash(tr) % k.q;
      assert challenge == Challenge(k, ct, stC.ys[|st0.ys|..], stC.zs[|st0.zs|..], hash);
      ok := Answer(ct, k, t, indexInDomain, challenge);
    }

    /** The end of compute: c set to the challenge, realC computed and the
        slot at idx answered. */
    method Answer(ct: Ciphertext, k: PublicKey, t: int, idx: nat, challenge: int) returns (ok: bool)
      requires 0 <= challenge < k.q
      requires p == Some(k.p) && q == Some(k.q)
      modifies this
      ensures (State(), ok) == Finish(old(State()), k, ct, t, idx, challenge)
    {
      c := Some(challenge);
      var realC := SubtractAll(k.q, challenge, cList);
      if idx >= |sList| {
        return false;
      }
      sList := sList[idx := AddExp(k.q, MulExp(k.q, realC, ct.r), t)];
      if idx >= |cList| {
        return false;
      }
      cList := cList[idx := realC];
      return true;
    }

    /** The domain loop of compute: per domain element, one entry appended to
        each list and the commitments appended to the transcript. */
    method CommitAll(ct: Ciphertext, k: PublicKey, value: int, domain: seq<int>,
                     t: int, sRand: seq<int>, cRand: seq<int>) returns (indexInDomain: nat, tr: seq<int>)
      requires |sRand| == |domain| && |cRand| == |domain|
      modifies this
      ensures State() == Commit(k, ct, t, value, domain, sRand, cRand, old(State()), |domain|)
      ensures indexInDomain == LastIndex(domain, value)
      ensures tr == Transcript(k, ct, yList[|old(yList)|..], zList[|old(zList)|..])
    {
      ghost var st0 := State();
      ghost var ys: seq<int>, zs: seq<int> := [], [];
      tr := [k.g, k.h, ct.G, ct.H];
      indexInDomain := 0;
      var i := 0;
      while i < |domain|
        invariant 0 <= i <= |domain|
        invariant State() == Commit(k, ct, t, value, domain, sRand, cRand, st0, i)
        invariant indexInDomain == LastIndex(domain[..i], value)
        invariant yList == st0.ys + ys && zList == st0.zs + zs && |ys| == |zs|
        invariant tr == Transcript(k, ct, ys, zs)
      {
        var y, z := AppendSlot(ct, k, value, domain[i], t, sRand[i], cRand[i], i);
        if domain[i] == value {
          indexInDomain := i;
        }
        TranscriptSnoc(k, ct, ys, zs, y, z);
        Assoc(st0.ys, ys, [y]);
        Assoc(st0.zs, zs, [z]);
        tr := tr + [y, z];
        ys, zs := ys + [y], zs + [z];
        LastIndexSnoc(domain, i, value);
        i := i + 1;
      }
      assert domain[..|domain|] == domain;
      assert yList[|st0.ys|..] == ys && zList[|st0.zs|..] == zs;
    }

    /** One pass of the domain loop for domain value d at index i. */
    method AppendSlot(ct: Ciphertext, k: PublicKey, value: int, d: int, t: int, sr: int, cr: int, i: nat)
      returns (y: int, z: int)
      requires i <= |sList| && i <= |cList|
      modifies this
      ensures State() == Step(k, ct, t, value, d, sr, cr, i, old(State()))
      ensures yList == old(yList) + [y] && zList == old(zList) + [z]
    {
      if d == value {
        sList := sList + [0];
        cList := cList + [0];
        y := Pow(k.q, k.g, t);
        z := Pow(k.q, k.h, t);
      } else {
        sList := sList + [sr];
        cList := cList + [cr];
        var s := sList[i];
        var c := cList[i];
        var negC := Neg(k.q, c);
        var fpow := Pow(k.q, k.f, d);
        y := Mul(k.q, Pow(k.q, k.g, s), Pow(k.q, ct.G, negC));
        z := Mul(k.q, Pow(k.q, k.h, s), Pow(k.q, Div(k.q, ct.H, fpow), negC));
      }
      yList := yList + [y];
      zList := zList + [z];
    }

    /** verify(ciphertext, pubKey, domain): overwrites p and q with the key's
        and leaves the lists alone. */
    method Verify(ct: Ciphertext, k: PublicKey, domain: seq<int>, hash: seq<int> -> nat) returns (r: Result<bool>)
      modifies this
      ensures State() == old(State()).(p := Some(k.p), q := Some(k.q))
      ensures r == VerifySpec(k, ct, domain, old(sList), old(cList), hash)
    {
      p := Some(k.p);
      q := Some(k.q);
      r := VerifyLists(ct, k, domain, sList, cList, hash);
    }

    /** toString(). */
    method ToString() returns (s: string)
      ensures s == Render(State())
    {
      s := "p" + (if p.Some? then IntToString(p.value) else "null");
      s := AppendTagged(s, 'y', yList);
      s := AppendTagged(s, 'z', zList);
      s := AppendTagged(s, 's', sList);
      s := AppendTagged(s, 'c', cList);
    }

    /** fromString(s): Err where it throws InvalidMembershipProofException. */
    static method FromString(s: string) returns (r: Result<MembershipProof>)
      ensures r.Ok? <==> ParseProof(s).Ok?
      ensures r.Ok? ==> fresh(r.value) && r.value.State() == ParseProof(s).value
    {
      var toks := Tokens(s, Delims, true);
      var numTokens := |toks| - 2;
      if JavaRem(numTokens, 8) != 0 {
        return Err("number of tokens not divisible by 8");
      }
      var count := JavaDiv(numTokens, 8);
      if toks[0] != "p" {
        return Err("expected token: `p'");
      }
      var st := ReadProof(toks, count);
      if st.Err? {
        return Err(st.error);
      }
      var mp := new MembershipProof.FromParts(st.value.p, st.value.q, st.value.ys, st.value.zs, st.value.ss, st.value.cs);
      return Ok(mp);
    }

    /** toASE() over the given AdderInteger codec; Err for a null p. */
    method ToASE(ai: Codec<int>) returns (r: Result<SExpr>)
      ensures r == MembershipProofCodec.ToASE(State(), ai)
    {
      var ysL := EncodeList(ai, yList);
      var zsL := EncodeList(ai, zList);
      var ssL := EncodeList(ai, sList);
      var csL := EncodeList(ai, cList);
      if p.None? {
        return Err("NullPointerException");
      }
      return Ok(Lst([Str(Head), ai.enc(p.value), Lst(ysL), Lst(zsL), Lst(ssL), Lst(csL)]));
    }

    /** fromASE(ase) over the given AdderInteger codec. */
    static method FromASE(e: SExpr, ai: Codec<int>) returns (r: Result<MembershipProof>)
      ensures r.Ok? <==> MembershipProofCodec.FromASE(e, ai).Ok?
      ensures r.Ok? ==> fresh(r.value) && r.value.State() == MembershipProofCodec.FromASE(e, ai).value
    {
      if !e.Lst? {
        return Err("ClassCastException");
      }
      var items := e.items;
      if |items| == 0 {
        return Err("IndexOutOfBoundsException");
      }
      if SExp.ToString(items[0]) != Head {
        return Err("Not membership-proof");
      }
      if |items| < 2 {
        return Err("IndexOutOfBoundsException");
      }
      var pv := ai.dec(items[1]);
      if pv.None? {
        return Err("bad p");
      }
      if |items| < 3 {
        return Err("IndexOutOfBoundsException");
      }
      if !items[2].Lst? {
        return Err("ClassCastException");
      }
      if |items| < 4 {
        return Err("IndexOutOfBoundsException");
      }
      if !items[3].Lst? {
        return Err("ClassCastException");
      }
      if |items| < 5 {
        return Err("IndexOutOfBoundsException");
      }
      if !items[4].Lst? {
        return Err("ClassCastException");
      }
      if |items| < 6 {
        return Err("IndexOutOfBoundsException");
      }
      if !items[5].Lst? {
        return Err("ClassCastException");
      }
      var ys := DecodeList(ai, items[2].items);
      var zs := DecodeList(ai, items[3].items);
      var ss := DecodeList(ai, items[4].items);
      var cs := DecodeList(ai, items[5].items);
      if ys.None? || zs.None? || ss.None? || cs.None? {
        return Err("bad list element");
      }
      var mp := new MembershipProof.FromParts(Some(pv.value), Some(SubPrime(pv.value)), ys.value, zs.value, ss.value, cs.value);
      return Ok(mp);
    }
  }

  /** The loop of compute that takes every entry of the c list away from
      the challenge, in Z_q. */
  method SubtractAll(q: Modulus, challenge: int, cs: seq<int>) returns (realC: int)
    requires 0 <= challenge < q
    ensures realC == (challenge - Sum(cs)) % q
  {
    realC := challenge;
    DivModUnique(challenge, q, 0, challenge);
    var j := 0;
    while j < |cs|
      invariant 0 <= j <= |cs|
      invariant realC == (challenge - Sum(cs[..j])) % q
    {
      assert cs[..j + 1][..j] == cs[..j];
      ModSubLeft(challenge - Sum(cs[..j]), cs[j], q);
      realC := SubExp(q, realC, cs[j]);
      j := j + 1;
    }
    assert cs[..|cs|] == cs;
  }

  /** The loop of verify over the s and c lists: the sum of the c's and the
      transcript of recomputed commitments, then the comparison. */
  method VerifyLists(ct: Ciphertext, k: PublicKey, domain: seq<int>, ss: seq<int>, cs: seq<int>,
                     hash: seq<int> -> nat) returns (r: Result<bool>)
    ensures r == VerifySpec(k, ct, domain, ss, cs, hash)
  {
    var cChoices := 0;
    DivModUnique(0, k.q, 0, 0);
    var tr := [k.g, k.h, ct.G, ct.H];
    var size := |cs|;
    var i := 0;
    while i < size
      invariant 0 <= i <= size && i <= |domain| && i <= |ss|
      invariant cChoices == Sum(cs[..i]) % k.q
      invariant tr == Transcript(k, ct, RecY(k, ct, ss, cs, i), RecZ(k, ct, domain, ss, cs, i))
    {
      if i >= |domain| || i >= |ss| {
        return Err("IndexOutOfBoundsException");
      }
      var d := domain[i];
      var fpow := Pow(k.q, k.f, d);
      var s := ss[i];
      var c := cs[i];
      var negC := Neg(k.q, c);
      SumSnoc(cs, i);
      ModAddLeft(Sum(cs[..i]), c, k.q);
      cChoices := AddExp(k.q, cChoices, c);
      var y := Mul(k.q, Pow(k.q, k.g, s), Pow(k.q, ct.G, negC));
      var z := Mul(k.q, Pow(k.q, k.h, s), Pow(k.q, Div(k.q, ct.H, fpow), negC));
      RecSnoc(ct, k, domain, ss, cs, i);
      TranscriptSnoc(k, ct, RecY(k, ct, ss, cs, i), RecZ(k, ct, domain, ss, cs, i), y, z);
      tr := tr + [y, z];
      i := i + 1;
    }
    assert cs[..size] == cs;
    var newC := hash(tr) % k.q;
    return Ok(cChoices == newC);
  }

  lemma SumSnoc(xs: seq<int>, i: nat)
    requires i < |xs|
    ensures Sum(xs[..i + 1]) == Sum(xs[..i]) + xs[i]
  {
    assert xs[..i + 1][..i] == xs[..i];
  }

  /** One more recomputed slot extends the recomputed lists by its y and z. */
  lemma RecSnoc(ct: Ciphertext, k: PublicKey, domain: seq<int>, ss: seq<int>, cs: seq<int>, i: nat)
    requires i < |domain| && i < |ss| && i < |cs|
    ensures RecY(k, ct, ss, cs, i + 1) == RecY(k, ct, ss, cs, i) + [CommitY(k, ct, ss[i], cs[i])]
    ensures RecZ(k, ct, domain, ss, cs, i + 1) == RecZ(k, ct, domain, ss, cs, i) + [CommitZ(k, ct, domain[i], ss[i], cs[i])]
  {
  }

  lemma TranscriptSnoc(k: PublicKey, ct: Ciphertext, ys: seq<int>, zs: seq<int>, y: int, z: int)
    requires |ys| == |zs|
    ensures Transcript(k, ct, ys + [y], zs + [z]) == Transcript(k, ct, ys, zs) + [y, z]
  {
    assert (ys + [y])[..|ys|] == ys && (zs + [z])[..|zs|] == zs;
  }

  /** The StringBuilder loop of toString for one list. */
  method AppendTagged(sb: string, tag: char, xs: seq<int>) returns (r: string)
    ensures r == sb + RenderTagged(tag, xs)
  {
    r := sb;
    var i := 0;
    while i < |xs|
      invariant 0 <= i <= |xs|
      invariant r == sb + RenderTagged(tag, xs[..i])
    {
      TaggedSnoc(sb, tag, xs, i);
      r := r + [tag] + IntToString(xs[i]);
      i := i + 1;
    }
    assert xs[..|xs|] == xs;
  }

  lemma TaggedSnoc(sb: string, tag: char, xs: seq<int>, i: nat)
    requires i < |xs|
    ensures sb + RenderTagged(tag, xs[..i + 1]) == sb + RenderTagged(tag, xs[..i]) + [tag] + IntToString(xs[i])
  {
    var pre := RenderTagged(tag, xs[..i]);
    assert xs[..i + 1][..i] == xs[..i];
    assert RenderTagged(tag, xs[..i + 1]) == pre + [tag] + IntToString(xs[i]);
    Assoc(sb, pre, [tag]);
    Assoc(sb, pre + [tag], IntToString(xs[i]));
  }

  lemma {:induction false} ParsePairsNoneStays(toks: seq<string>, start: nat, i: nat, n: nat, tag: char)
    requires i <= n && ParsePairs(toks, start, i, tag).None?
    ensures ParsePairs(toks, start, n, tag).None?
    decreases n
  {
    if i < n {
      ParsePairsNoneStays(toks, start, i, n - 1, tag);
    }
  }

  /** The part of fromString after the count and the `p' check: p's
      decimal and the four tagged lists. */
  method ReadProof(toks: seq<string>, count: nat) returns (r: Result<ProofState>)
    requires |toks| >= 2 && JavaRem(|toks| - 2, 8) == 0 && count == JavaDiv(|toks| - 2, 8) && toks[0] == "p"
    ensures r.Ok? <==> ParseTokenList(toks).Ok?
    ensures r.Ok? ==> r.value == ParseTokenList(toks).value
  {
    var pv := ParseBigInteger(toks[1]);
    if pv.None? {
      return Err("NumberFormatException");
    }
    var pvalue := pv.value;
    var ys := ReadTagged(toks, 2, count, 'y');
    if ys.None? {
      return Err("expected token: `y'");
    }
    var zs := ReadTagged(toks, 2 + 2 * count, count, 'z');
    if zs.None? {
      return Err("expected token: `z'");
    }
    var ss := ReadTagged(toks, 2 + 4 * count, count, 's');
    if ss.None? {
      return Err("expected token: `s'");
    }
    var cs := ReadTagged(toks, 2 + 6 * count, count, 'c');
    if cs.None? {
      return Err("expected token: `c'");
    }
    return Ok(ProofState(Some(pvalue), Some(SubPrime(pvalue)), None, ys.value, zs.value, ss.value, cs.value));
  }

  /** One loop of fromString: n times a tag token and a number token. */
  method ReadTagged(toks: seq<string>, start: nat, n: nat, tag: char) returns (r: Option<seq<int>>)
    ensures r == ParsePairs(toks, start, n, tag)
  {
    var xs := [];
    var i := 0;
    while i < n
      invariant 0 <= i <= n
      invariant ParsePairs(toks, start, i, tag) == Some(xs)
    {
      var j := start + 2 * i;
      if j + 1 >= |toks| || toks[j] != [tag] {
        ParsePairsNoneStays(toks, start, i + 1, n, tag);
        return None;
      }
      var v := ParseBigInteger(toks[j + 1]);
      if v.None? {
        ParsePairsNoneStays(toks, start, i + 1, n, tag);
        return None;
      }
      xs := xs + [v.value];
      i := i + 1;
    }
    return Some(xs);
  }
}

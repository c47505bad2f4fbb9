/** The Adder vote (crypto/adder/Vote.java): a vector of ElGamal ciphertexts,
    one per candidate, with the slot-wise product and its string and
    s-expression forms. ElgamalCiphertext's own string and s-expression
    conversions are parameters. */
module Votes {
  import opened Wrappers
  import opened Sequences
  import opened JavaStrings
  import opened SExp
  import opened Group

  datatype Vote = Vote(ciphers: seq<Ciphertext>)

  /** A toString/fromString pair of a class the model does not define;
      fromString gives None where the class throws. */
  datatype TextCodec<!T> = TextCodec(enc: T -> string, dec: string -> Option<T>)

  /** The head atom of a vote's s-expression. */
  const Head: string := "vote"

  // ---- multiply -------------------------------------------------------------

  /** The slot-wise product of two ciphertext vectors, as long as the first. */
  function Product(q: Modulus, a: seq<Ciphertext>, b: seq<Ciphertext>): (r: seq<Ciphertext>)
    requires |a| <= |b|
  {
    seq(|a|, i requires 0 <= i < |a| => CMul(q, a[i], b[i]))
  }

  /** multiply(vote): a fresh vote with this[i] * vote[i] for every slot of
      this; a shorter vote throws at its first missing slot. */
  method Multiply(q: Modulus, v: Vote, other: Vote) returns (r: Result<Vote>)
    ensures r.Ok? <==> |v.ciphers| <= |other.ciphers|
    ensures r.Ok? ==> |r.value.ciphers| == |v.ciphers| && r.value.ciphers == Product(q, v.ciphers, other.ciphers)
    ensures r.Err? ==> r.error == "IndexOutOfBoundsException"
  {
    var vec: seq<Ciphertext> := [];
    var i := 0;
    while i < |v.ciphers|
      invariant 0 <= i <= |v.ciphers| && i <= |other.ciphers|
      invariant vec == Product(q, v.ciphers[..i], other.ciphers)
    {
      if i >= |other.ciphers| {
        return Err("IndexOutOfBoundsException");
      }
      vec := vec + [CMul(q, v.ciphers[i], other.ciphers[i])];
      i := i + 1;
    }
    assert v.ciphers[..|v.ciphers|] == v.ciphers;
    return Ok(Vote(vec));
  }

  /** The vector of encryptions of ms under the randomness rs. */
  predicate Encrypts(k: PublicKey, cs: seq<Ciphertext>, ms: seq<int>, rs: seq<int>) {
    |cs| == |ms| == |rs| && forall i :: 0 <= i < |cs| ==> cs[i] == Encrypt(k, ms[i], rs[i])
  }

  /** The product of two encrypted votes encrypts the slot-wise sums of
      their messages under the summed randomness: the homomorphism tallying
      rests on. */
  lemma ProductEncrypts(k: PublicKey, a: seq<Ciphertext>, b: seq<Ciphertext>,
                        ma: seq<int>, ra: seq<int>, mb: seq<int>, rb: seq<int>)
    requires Encrypts(k, a, ma, ra) && Encrypts(k, b, mb, rb) && |a| == |b|
    ensures Encrypts(k, Product(k.q, a, b),
                     seq(|a|, i requires 0 <= i < |a| => ma[i] + mb[i]),
                     seq(|a|, i requires 0 <= i < |a| => ra[i] + rb[i]))
  {
    forall i | 0 <= i < |a|
      ensures Product(k.q, a, b)[i] == Encrypt(k, ma[i] + mb[i], ra[i] + rb[i])
    {
      EncryptHomomorphic(k, ma[i], ra[i], mb[i], rb[i]);
    }
  }

  // ---- toString / fromString --------------------------------------------------

  /** The StringBuffer of toString: each ciphertext's string followed by one space. */
  function Spaced(cs: seq<Ciphertext>, tc: TextCodec<Ciphertext>): string {
    if |cs| == 0 then "" else Spaced(cs[..|cs| - 1], tc) + tc.enc(cs[|cs| - 1]) + " "
  }

  /** toString(): the ciphertext strings separated by spaces, trimmed. */
  function Text(v: Vote, tc: TextCodec<Ciphertext>): string {
    Trim(Spaced(v.ciphers, tc))
  }

  /** Every token through the ciphertext parser, in order; the first failure
      is InvalidVoteException. */
  function ParseAll(toks: seq<string>, tc: TextCodec<Ciphertext>): (r: Result<seq<Ciphertext>>)
    ensures r.Ok? ==> |r.value| == |toks|
  {
    if |toks| == 0 then Ok([])
    else match ParseAll(toks[..|toks| - 1], tc)
      case Err(e) => Err(e)
      case Ok(cs) =>
        match tc.dec(toks[|toks| - 1])
        case None => Err("InvalidVoteException")
        case Some(c) => Ok(cs + [c])
  }

  /** fromString(s): the space-separated tokens of s, each a ciphertext. */
  function Parse(s: string, tc: TextCodec<Ciphertext>): Result<Vote> {
    match ParseAll(Tokens(s, {' '}, false), tc)
    case Err(e) => Err(e)
    case Ok(cs) => Ok(Vote(cs))
  }

  method ToString(v: Vote, tc: TextCodec<Ciphertext>) returns (s: string)
    ensures s == Text(v, tc)
  {
    var sb := "";
    var i := 0;
    while i < |v.ciphers|
      invariant 0 <= i <= |v.ciphers|
      invariant sb == Spaced(v.ciphers[..i], tc)
    {
      var pre := v.ciphers[..i + 1];
      assert pre[..i] == v.ciphers[..i] && pre[i] == v.ciphers[i];
      assert Spaced(pre, tc) == Spaced(v.ciphers[..i], tc) + tc.enc(v.ciphers[i]) + " ";
      sb := sb + tc.enc(v.ciphers[i]) + " ";
      i := i + 1;
    }
    assert v.ciphers[..|v.ciphers|] == v.ciphers;
    assert sb == Spaced(v.ciphers, tc);
    return Trim(sb);
  }

  lemma {:induction false} ParseAllErrStays(toks: seq<string>, tc: TextCodec<Ciphertext>, i: nat)
    requires i <= |toks| && ParseAll(toks[..i], tc).Err?
    ensures ParseAll(toks, tc) == Err("InvalidVoteException")
    decreases |toks| - i
  {
    if i < |toks| {
      assert toks[..i + 1][..i] == toks[..i];
      ParseAllErrStays(toks, tc, i + 1);
    } else {
      assert toks[..i] == toks;
      ParseAllErrIsInvalid(toks, tc);
    }
  }

  lemma {:induction false} ParseAllErrIsInvalid(toks: seq<string>, tc: TextCodec<Ciphertext>)
    requires ParseAll(toks, tc).Err?
    ensures ParseAll(toks, tc) == Err("InvalidVoteException")
    decreases |toks|
  {
    if ParseAll(toks[..|toks| - 1], tc).Err? {
      ParseAllErrIsInvalid(toks[..|toks| - 1], tc);
    }
  }

  method FromString(s: string, tc: TextCodec<Ciphertext>) returns (r: Result<Vote>)
    ensures r == Parse(s, tc)
  {
    var toks := Tokens(s, {' '}, false);
    var cs := ParseCiphers(toks, tc);
    if cs.Err? {
      return Err(cs.error);
    }
    return Ok(Vote(cs.value));
  }

  /** The loop of fromString over the tokens. */
  method ParseCiphers(toks: seq<string>, tc: TextCodec<Ciphertext>) returns (r: Result<seq<Ciphertext>>)
    ensures r == ParseAll(toks, tc)
  {
    var cList: seq<Ciphertext> := [];
    var i := 0;
    while i < |toks|
      invariant 0 <= i <= |toks|
      invariant ParseAll(toks[..i], tc) == Ok(cList)
    {
      assert toks[..i + 1][..i] == toks[..i];
      var c := tc.dec(toks[i]);
      if c.None? {
        ParseAllErrStays(toks, tc, i + 1);
        return Err("InvalidVoteException");
      }
      cList := cList + [c.value];
      i := i + 1;
    }
    assert toks[..|toks|] == toks;
    return Ok(cList);
  }

  /** A ciphertext codec whose strings are nonempty, free of spaces and
      control characters, and parse back. */
  ghost predicate GoodText(tc: TextCodec<Ciphertext>) {
    forall c :: |tc.enc(c)| >= 1 && NoControlOrSpace(tc.enc(c)) && tc.dec(tc.enc(c)) == Some(c)
  }

  function Encs(cs: seq<Ciphertext>, tc: TextCodec<Ciphertext>): (ws: seq<string>)
    ensures |ws| == |cs| && forall i :: 0 <= i < |cs| ==> ws[i] == tc.enc(cs[i])
  {
    seq(|cs|, i requires 0 <= i < |cs| => tc.enc(cs[i]))
  }

  lemma JoinSnoc(sep: char, ws: seq<string>, w: string)
    requires |ws| >= 1
    ensures Join(sep, ws + [w]) == Join(sep, ws) + [sep] + w
    decreases |ws|
  {
    if |ws| > 1 {
      assert (ws + [w])[1..] == ws[1..] + [w];
      JoinSnoc(sep, ws[1..], w);
    } else {
      assert (ws + [w])[1..] == [w];
    }
  }

  /** The buffer is the join of the ciphertext strings plus one trailing space. */
  lemma {:induction false} SpacedJoin(cs: seq<Ciphertext>, tc: TextCodec<Ciphertext>)
    requires |cs| >= 1
    ensures Spaced(cs, tc) == Join(' ', Encs(cs, tc)) + " "
    decreases |cs|
  {
    var init := cs[..|cs| - 1];
    if |init| == 0 {
      assert Spaced(init, tc) == "";
    } else {
      SpacedJoin(init, tc);
      assert Encs(cs, tc) == Encs(init, tc) + [tc.enc(cs[|cs| - 1])];
      JoinSnoc(' ', Encs(init, tc), tc.enc(cs[|cs| - 1]));
    }
  }

  /** A join of words without spaces or control characters neither starts
      nor ends with one. */
  lemma {:induction false} JoinEnds(ws: seq<string>)
    requires |ws| >= 1
    requires forall i :: 0 <= i < |ws| ==> |ws[i]| >= 1 && NoControlOrSpace(ws[i])
    ensures |Join(' ', ws)| >= 1 && Join(' ', ws)[0] > ' ' && Join(' ', ws)[|Join(' ', ws)| - 1] > ' '
    decreases |ws|
  {
    if |ws| > 1 {
      JoinEnds(ws[1..]);
    }
  }

  /** Tokenizing a space-joined sequence of words gives the words back. */
  lemma {:induction false} TokensOfJoin(ws: seq<string>)
    requires |ws| >= 1
    requires forall i :: 0 <= i < |ws| ==> |ws[i]| >= 1 && NoControlOrSpace(ws[i])
    ensures Tokens(Join(' ', ws), {' '}, false) == ws
    decreases |ws|
  {
    var w := ws[0];
    assert forall j :: 0 <= j < |w| ==> w[j] !in {' '};
    if |ws| == 1 {
      TokensWord(w, "", {' '}, false);
      assert w + "" == w;
    } else {
      var rest := Join(' ', ws[1..]);
      assert Join(' ', ws) == w + [' '] + rest;
      Assoc(w, [' '], rest);
      TokensWord(w, [' '] + rest, {' '}, false);
      TokensDelim(' ', rest, {' '}, false);
      assert Tokens([' '] + rest, {' '}, false) == Tokens(rest, {' '}, false);
      TokensOfJoin(ws[1..]);
      assert ws == [w] + ws[1..];
    }
  }

  /** fromString(toString(v)) == v when every ciphertext string is a
      nonempty word that parses back. */
  lemma TextRoundTrip(v: Vote, tc: TextCodec<Ciphertext>)
    requires GoodText(tc)
    ensures Parse(Text(v, tc), tc) == Ok(v)
  {
    var cs := v.ciphers;
    var ws := Encs(cs, tc);
    if |cs| == 0 {
      assert Text(v, tc) == "";
    } else {
      SpacedJoin(cs, tc);
      JoinEnds(ws);
      TrimTrailingSpace(Join(' ', ws));
      TokensOfJoin(ws);
    }
    ParseAllEncs(cs, tc);
  }

  lemma {:induction false} ParseAllEncs(cs: seq<Ciphertext>, tc: TextCodec<Ciphertext>)
    requires GoodText(tc)
    ensures ParseAll(Encs(cs, tc), tc) == Ok(cs)
    decreases |cs|
  {
    if |cs| > 0 {
      var init := cs[..|cs| - 1];
      assert Encs(cs, tc)[..|cs| - 1] == Encs(init, tc);
      ParseAllEncs(init, tc);
      assert tc.dec(tc.enc(cs[|cs| - 1])) == Some(cs[|cs| - 1]);
      assert init + [cs[|cs| - 1]] == cs;
    }
  }

  /** fromString fails, with InvalidVoteException, exactly when some token
      is not a ciphertext. */
  lemma {:induction false} ParseAllFails(toks: seq<string>, tc: TextCodec<Ciphertext>)
    ensures ParseAll(toks, tc).Err? <==> exists i :: 0 <= i < |toks| && tc.dec(toks[i]).None?
    ensures ParseAll(toks, tc).Err? ==> ParseAll(toks, tc) == Err("InvalidVoteException")
    decreases |toks|
  {
    if |toks| > 0 {
      var init := toks[..|toks| - 1];
      ParseAllFails(init, tc);
      assert forall i :: 0 <= i < |init| ==> init[i] == toks[i];
      if ParseAll(toks, tc).Err? {
        ParseAllErrIsInvalid(toks, tc);
      }
      if tc.dec(toks[|toks| - 1]).None? {
        assert tc.dec(toks[|toks| - 1]).None?;
      }
    }
  }

  // ---- toASE / fromASE ---------------------------------------------------------

  /** toASE(): ("vote" (c1 ... cn)). */
  function ASE(v: Vote, cc: Codec<Ciphertext>): SExpr {
    Lst([Str(Head), Lst(EncodeAll(cc, v.ciphers))])
  }

  /** fromASE(e): a list whose first element prints as "vote" and whose
      second is a list of ciphertexts. */
  function OfASE(e: SExpr, cc: Codec<Ciphertext>): Result<Vote> {
    if !e.Lst? then Err("ClassCastException")
    else if |e.items| == 0 then Err("IndexOutOfBoundsException")
    else if SExp.ToString(e.items[0]) != Head then Err("Not vote")
    else if |e.items| < 2 then Err("IndexOutOfBoundsException")
    else if !e.items[1].Lst? then Err("ClassCastException")
    else match DecodeAll(cc, e.items[1].items)
      case None => Err("bad ciphertext")
      case Some(cs) => Ok(Vote(cs))
  }

  method ToASE(v: Vote, cc: Codec<Ciphertext>) returns (r: SExpr)
    ensures r == ASE(v, cc)
  {
    var cList := EncodeList(cc, v.ciphers);
    return Lst([Str(Head), Lst(cList)]);
  }

  method FromASE(e: SExpr, cc: Codec<Ciphertext>) returns (r: Result<Vote>)
    ensures r == OfASE(e, cc)
  {
    if !e.Lst? {
      return Err("ClassCastException");
    }
    if |e.items| == 0 {
      return Err("IndexOutOfBoundsException");
    }
    if SExp.ToString(e.items[0]) != Head {
      return Err("Not vote");
    }
    if |e.items| < 2 {
      return Err("IndexOutOfBoundsException");
    }
    if !e.items[1].Lst? {
      return Err("ClassCastException");
    }
    var cs := DecodeList(cc, e.items[1].items);
    if cs.None? {
      return Err("bad ciphertext");
    }
    return Ok(Vote(cs.value));
  }

  /** fromASE(toASE(v)) == v, length and order kept. */
  lemma ASERoundTrip(v: Vote, cc: Codec<Ciphertext>)
    requires RoundTrips(cc)
    ensures OfASE(ASE(v, cc), cc) == Ok(v)
  {
    DecodeEncodeAll(cc, v.ciphers);
  }

  /** What fromASE accepts: a list headed by an atom printing as "vote",
      one ciphertext per element of its second item, each decoded in place. */
  lemma OfASEAccepts(e: SExpr, cc: Codec<Ciphertext>)
    requires OfASE(e, cc).Ok?
    ensures e.Lst? && |e.items| >= 2 && SExp.ToString(e.items[0]) == Head && e.items[1].Lst?
    ensures |OfASE(e, cc).value.ciphers| == |e.items[1].items|
    ensures forall i :: 0 <= i < |e.items[1].items| ==> cc.dec(e.items[1].items[i]) == Some(OfASE(e, cc).value.ciphers[i])
  {
    DecodeAllElements(cc, e.items[1].items);
  }
}

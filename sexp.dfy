/** S-expressions as the core handles them: an atom (StringExpression) or a
    list of expressions (ListExpression), and the codec shape of the
    toASE/fromASE pairs of the collaborating classes. */
module SExp {
  import opened Wrappers
  import opened JavaStrings
  import opened Bytes

  datatype SExpr = Str(s: string) | Lst(items: seq<SExpr>)

  /** A stand-in for ASExpression.toString(): an atom is its text, a list is
      its rendered items between parentheses, separated by one space. */
  function ToString(e: SExpr): string
    decreases e
  {
    match e
    case Str(s) => s
    case Lst(items) =>
      "(" + Join(' ', seq(|items|, i requires 0 <= i < |items| => ToString(items[i]))) + ")"
  }

  /** An atom holding the given bytes (new StringExpression(byte[])). */
  function AtomOfBytes(bs: seq<byte>): SExpr {
    Str(BytesToString(bs))
  }

  /** StringExpression.getBytesCopy(), for atoms whose characters are bytes. */
  function AtomBytes(e: SExpr): Option<seq<byte>> {
    if e.Str? && IsByteString(e.s) then Some(StringToBytes(e.s)) else None
  }

  lemma AtomBytesOfBytes(bs: seq<byte>)
    ensures AtomBytes(AtomOfBytes(bs)) == Some(bs)
  {
    BytesStringRoundTrip(bs);
  }

  /** A toASE/fromASE pair of a class the model does not define; fromASE
      gives None where the class throws. */
  datatype Codec<!T> = Codec(enc: T -> SExpr, dec: SExpr -> Option<T>)

  /** fromASE(x.toASE()) gives x back for every x. */
  ghost predicate RoundTrips<T(!new)>(c: Codec<T>) {
    forall x :: c.dec(c.enc(x)) == Some(x)
  }

  /** Every element through the codec's encoder, in order. */
  function EncodeAll<T>(c: Codec<T>, xs: seq<T>): (es: seq<SExpr>)
    ensures |es| == |xs| && forall i :: 0 <= i < |xs| ==> es[i] == c.enc(xs[i])
  {
    seq(|xs|, i requires 0 <= i < |xs| => c.enc(xs[i]))
  }

  /** Every element decoded in order; None if any of them fails. */
  function DecodeAll<T>(c: Codec<T>, es: seq<SExpr>): (r: Option<seq<T>>)
    ensures r.Some? ==> |r.value| == |es|
  {
    if |es| == 0 then Some([])
    else match DecodeAll(c, es[..|es| - 1])
      case None => None
      case Some(xs) =>
        match c.dec(es[|es| - 1])
        case None => None
        case Some(v) => Some(xs + [v])
  }

  /** Decoding the encoding of a sequence gives it back. */
  lemma {:induction false} DecodeEncodeAll<T(!new)>(c: Codec<T>, xs: seq<T>)
    requires RoundTrips(c)
    ensures DecodeAll(c, EncodeAll(c, xs)) == Some(xs)
    decreases |xs|
  {
    if |xs| > 0 {
      var init := xs[..|xs| - 1];
      assert EncodeAll(c, xs)[..|xs| - 1] == EncodeAll(c, init);
      DecodeEncodeAll(c, init);
      assert c.dec(c.enc(xs[|xs| - 1])) == Some(xs[|xs| - 1]);
      assert init + [xs[|xs| - 1]] == xs;
    }
  }

  /** DecodeAll succeeds exactly when every element decodes, and then holds
      the decoded elements in order. */
  lemma {:induction false} DecodeAllElements<T>(c: Codec<T>, es: seq<SExpr>)
    ensures DecodeAll(c, es).Some? <==> forall i :: 0 <= i < |es| ==> c.dec(es[i]).Some?
    ensures DecodeAll(c, es).Some? ==> forall i :: 0 <= i < |es| ==> Some(DecodeAll(c, es).value[i]) == c.dec(es[i])
    decreases |es|
  {
    if |es| > 0 {
      var init := es[..|es| - 1];
      DecodeAllElements(c, init);
      assert forall i :: 0 <= i < |init| ==> init[i] == es[i];
    }
  }

  /** The loop of a toASE: each element through the codec. */
  method EncodeList<T>(c: Codec<T>, xs: seq<T>) returns (es: seq<SExpr>)
    ensures es == EncodeAll(c, xs)
  {
    es := [];
    var i := 0;
    while i < |xs|
      invariant 0 <= i <= |xs|
      invariant es == EncodeAll(c, xs[..i])
    {
      es := es + [c.enc(xs[i])];
      i := i + 1;
    }
    assert xs[..|xs|] == xs;
  }

  lemma {:induction false} DecodeAllNoneStays<T>(c: Codec<T>, es: seq<SExpr>, i: nat)
    requires i <= |es| && DecodeAll(c, es[..i]).None?
    ensures DecodeAll(c, es).None?
    decreases |es| - i
  {
    if i < |es| {
      assert es[..i + 1][..i] == es[..i];
      DecodeAllNoneStays(c, es, i + 1);
    } else {
      assert es[..i] == es;
    }
  }

  /** The loop of a fromASE: each element through the codec, stopping at the
      first that fails. */
  method DecodeList<T>(c: Codec<T>, es: seq<SExpr>) returns (r: Option<seq<T>>)
    ensures r == DecodeAll(c, es)
  {
    var xs := [];
    var i := 0;
    while i < |es|
      invariant 0 <= i <= |es|
      invariant DecodeAll(c, es[..i]) == Some(xs)
    {
      assert es[..i + 1][..i] == es[..i];
      var v := c.dec(es[i]);
      if v.None? {
        DecodeAllNoneStays(c, es, i + 1);
        return None;
      }
      xs := xs + [v.value];
      i := i + 1;
    }
    assert es[..|es|] == es;
    return Some(xs);
  }
}

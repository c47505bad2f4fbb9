/** The fields of an Adder membership proof as a value, and the two external
    forms of a proof: the tagged text of toString/fromString and the
    s-expression of toASE/fromASE. */
module MembershipProofCodec {
  import opened Wrappers
  import opened Sequences
  import opened Numeric
  import opened JavaStrings
  import opened SExp

  /** The seven fields of a MembershipProof; None stands for a null field. */
  datatype ProofState = ProofState(p: Option<int>, q: Option<int>, c: Option<int>,
                                   ys: seq<int>, zs: seq<int>, ss: seq<int>, cs: seq<int>)

  /** The state of a freshly constructed proof: null numbers, empty lists. */
  const Fresh: ProofState := ProofState(None, None, None, [], [], [], [])

  /** The tokenizer delimiters of fromString, which are also the tags. */
  const Delims: set<char> := {'p', 'y', 'z', 's', 'c'}

  /** q as fromString and fromASE derive it from p: (p - 1) / 2. */
  function SubPrime(p: int): int {
    JavaDiv(p - 1, 2)
  }

  // ---- Text form -------------------------------------------------------

  /** Each value as its tag character followed by its decimal text. */
  function RenderTagged(tag: char, xs: seq<int>): string {
    if |xs| == 0 then "" else RenderTagged(tag, xs[..|xs| - 1]) + [tag] + IntToString(xs[|xs| - 1])
  }

  /** toString(): "p" and p's decimal ("null" for a null p), then the y, z, s
      and c lists; q and c are not written. */
  function Render(st: ProofState): string {
    "p" + (if st.p.Some? then IntToString(st.p.value) else "null")
      + RenderTagged('y', st.ys) + RenderTagged('z', st.zs)
      + RenderTagged('s', st.ss) + RenderTagged('c', st.cs)
  }

  /** Reading n (tag, value) token pairs from position start on; None where
      fromString throws (a missing token, a wrong tag, a bad number). */
  function ParsePairs(toks: seq<string>, start: nat, n: nat, tag: char): Option<seq<int>>
    decreases n
  {
    if n == 0 then Some([])
    else
      var prev := ParsePairs(toks, start, n - 1, tag);
      var j := start + 2 * (n - 1);
      if prev.None? || j + 1 >= |toks| || toks[j] != [tag] || ParseBigInteger(toks[j + 1]).None? then None
      else Some(prev.value + [ParseBigInteger(toks[j + 1]).value])
  }

  /** fromString(s): the token count less two must be a multiple of eight
      (Java's %), the first token is "p" and the next p's decimal; then
      count/8 of each of y, z, s and c, in that order. q is derived from p, c
      stays null. */
  function ParseProof(s: string): Result<ProofState> {
    ParseTokenList(Tokens(s, Delims, true))
  }

  function ParseTokenList(toks: seq<string>): Result<ProofState> {
    var num := |toks| - 2;
    if JavaRem(num, 8) != 0 then Err("number of tokens not divisible by 8")
    else
      assert num >= 0;
      var count: nat := JavaDiv(num, 8);
      if toks[0] != "p" then Err("expected token: `p'")
      else match ParseBigInteger(toks[1])
        case None => Err("NumberFormatException")
        case Some(p) =>
          var ys := ParsePairs(toks, 2, count, 'y');
          var zs := ParsePairs(toks, 2 + 2 * count, count, 'z');
          var ss := ParsePairs(toks, 2 + 4 * count, count, 's');
          var cs := ParsePairs(toks, 2 + 6 * count, count, 'c');
          if ys.None? || zs.None? || ss.None? || cs.None? then Err("InvalidMembershipProofException")
          else Ok(ProofState(Some(p), Some(SubPrime(p)), None, ys.value, zs.value, ss.value, cs.value))
  }

  /** The tokens of RenderTagged: the tag, then the decimal, per value. */
  function TaggedTokens(tag: char, xs: seq<int>): (ts: seq<string>)
    ensures |ts| == 2 * |xs|
  {
    if |xs| == 0 then [] else TaggedTokens(tag, xs[..|xs| - 1]) + [[tag], IntToString(xs[|xs| - 1])]
  }

  predicate StartsAtDelim(s: string) {
    |s| == 0 || s[0] in Delims
  }

  lemma RenderTaggedStarts(tag: char, xs: seq<int>)
    requires tag in Delims
    ensures StartsAtDelim(RenderTagged(tag, xs))
  {
    if |xs| > 0 {
      var init := RenderTagged(tag, xs[..|xs| - 1]);
      RenderTaggedStarts(tag, xs[..|xs| - 1]);
      Assoc(init, [tag], IntToString(xs[|xs| - 1]));
      assert RenderTagged(tag, xs) == init + ([tag] + IntToString(xs[|xs| - 1]));
    }
  }

  /** A decimal is one token: it holds no tag character. */
  lemma DecimalIsWord(n: int)
    ensures |IntToString(n)| >= 1
    ensures forall i :: 0 <= i < |IntToString(n)| ==> IntToString(n)[i] !in Delims
  {
    IntToStringChars(n);
  }

  /** A tag followed by a decimal is two tokens. */
  lemma TokensTagWord(tag: char, n: int, rest: string)
    requires tag in Delims && StartsAtDelim(rest)
    ensures Tokens([tag] + (IntToString(n) + rest), Delims, true) == [[tag], IntToString(n)] + Tokens(rest, Delims, true)
  {
    DecimalIsWord(n);
    TokensDelim(tag, IntToString(n) + rest, Delims, true);
    TokensWord(IntToString(n), rest, Delims, true);
  }

  lemma {:induction false} TokensOfTagged(tag: char, xs: seq<int>, rest: string)
    requires tag in Delims && StartsAtDelim(rest)
    ensures Tokens(RenderTagged(tag, xs) + rest, Delims, true) == TaggedTokens(tag, xs) + Tokens(rest, Delims, true)
    decreases |xs|
  {
    if |xs| == 0 {
      assert RenderTagged(tag, xs) + rest == rest;
    } else {
      var init := xs[..|xs| - 1];
      var x := xs[|xs| - 1];
      var d := IntToString(x);
      var rest2 := [tag] + (d + rest);
      assert RenderTagged(tag, xs) == RenderTagged(tag, init) + [tag] + d;
      Assoc(RenderTagged(tag, init) + [tag], d, rest);
      Assoc(RenderTagged(tag, init), [tag], d + rest);
      assert RenderTagged(tag, xs) + rest == RenderTagged(tag, init) + rest2;
      TokensOfTagged(tag, init, rest2);
      TokensTagWord(tag, x, rest);
      assert TaggedTokens(tag, xs) == TaggedTokens(tag, init) + [[tag], d];
      Assoc(TaggedTokens(tag, init), [[tag], d], Tokens(rest, Delims, true));
    }
  }

  /** The tokens of a rendered proof with a non-null p. */
  lemma TokensOfRender(st: ProofState)
    requires st.p.Some?
    ensures Tokens(Render(st), Delims, true) == ProofTokens(st)
  {
    TokensOfRenderHead(st);
    TokensOfLists(st);
    var h: seq<string> := ["p", IntToString(st.p.value)];
    var ty, tz, ts, tc := TaggedTokens('y', st.ys), TaggedTokens('z', st.zs), TaggedTokens('s', st.ss), TaggedTokens('c', st.cs);
    assert [['p'], IntToString(st.p.value)] == h;
    Assoc(h, (ty + tz) + ts, tc);
    Assoc(h, ty + tz, ts);
    Assoc(h, ty, tz);
  }

  lemma TokensOfRenderHead(st: ProofState)
    requires st.p.Some?
    ensures Tokens(Render(st), Delims, true) == [['p'], IntToString(st.p.value)]
      + Tokens(RenderTagged('y', st.ys) + (RenderTagged('z', st.zs) + (RenderTagged('s', st.ss) + RenderTagged('c', st.cs))), Delims, true)
  {
    var r := RenderTagged('y', st.ys) + (RenderTagged('z', st.zs) + (RenderTagged('s', st.ss) + RenderTagged('c', st.cs)));
    RenderSplit(st);
    RenderListsStart(st);
    TokensTagWord('p', st.p.value, r);
  }

  lemma RenderSplit(st: ProofState)
    requires st.p.Some?
    ensures Render(st) == ['p'] + (IntToString(st.p.value)
      + (RenderTagged('y', st.ys) + (RenderTagged('z', st.zs) + (RenderTagged('s', st.ss) + RenderTagged('c', st.cs)))))
  {
    var a, y, z, s, c := IntToString(st.p.value), RenderTagged('y', st.ys), RenderTagged('z', st.zs),
      RenderTagged('s', st.ss), RenderTagged('c', st.cs);
    assert Render(st) == ['p'] + a + y + z + s + c;
    Assoc(['p'] + a + y + z, s, c);
    Assoc(['p'] + a + y, z, s + c);
    Assoc(['p'] + a, y, z + (s + c));
    Assoc(['p'], a, y + (z + (s + c)));
  }

  lemma RenderListsStart(st: ProofState)
    ensures StartsAtDelim(RenderTagged('y', st.ys) + (RenderTagged('z', st.zs) + (RenderTagged('s', st.ss) + RenderTagged('c', st.cs))))
  {
    RenderTaggedStarts('y', st.ys); RenderTaggedStarts('z', st.zs);
    RenderTaggedStarts('s', st.ss); RenderTaggedStarts('c', st.cs);
  }

  lemma TokensOfLists(st: ProofState)
    ensures Tokens(RenderTagged('y', st.ys) + (RenderTagged('z', st.zs) + (RenderTagged('s', st.ss) + RenderTagged('c', st.cs))), Delims, true)
      == TaggedTokens('y', st.ys) + TaggedTokens('z', st.zs) + TaggedTokens('s', st.ss) + TaggedTokens('c', st.cs)
  {
    var ry, rz, rs, rc := RenderTagged('y', st.ys), RenderTagged('z', st.zs), RenderTagged('s', st.ss), RenderTagged('c', st.cs);
    var ty, tz, ts, tc := TaggedTokens('y', st.ys), TaggedTokens('z', st.zs), TaggedTokens('s', st.ss), TaggedTokens('c', st.cs);
    assert Tokens(rc, Delims, true) == tc by {
      TokensOfTagged('c', st.cs, "");
      assert rc + "" == rc;
    }
    assert Tokens(rs + rc, Delims, true) == ts + tc by {
      RenderTaggedStarts('c', st.cs);
      TokensOfTagged('s', st.ss, rc);
    }
    assert Tokens(rz + (rs + rc), Delims, true) == tz + (ts + tc) by {
      RenderTaggedStarts('c', st.cs); RenderTaggedStarts('s', st.ss);
      assert StartsAtDelim(rs + rc);
      TokensOfTagged('z', st.zs, rs + rc);
    }
    assert Tokens(ry + (rz + (rs + rc)), Delims, true) == ty + (tz + (ts + tc)) by {
      RenderTaggedStarts('c', st.cs); RenderTaggedStarts('s', st.ss); RenderTaggedStarts('z', st.zs);
      assert StartsAtDelim(rz + (rs + rc));
      TokensOfTagged('y', st.ys, rz + (rs + rc));
    }
    Assoc(ty + tz, ts, tc);
    Assoc(ty, tz, ts + tc);
  }

  lemma {:induction false} ParsePairsTagged(a: seq<string>, tag: char, xs: seq<int>, b: seq<string>)
    ensures ParsePairs(a + TaggedTokens(tag, xs) + b, |a|, |xs|, tag) == Some(xs)
    decreases |xs|
  {
    if |xs| > 0 {
      var init := xs[..|xs| - 1];
      var x := xs[|xs| - 1];
      var toks := a + TaggedTokens(tag, xs) + b;
      assert toks == a + TaggedTokens(tag, init) + ([[tag], IntToString(x)] + b);
      ParsePairsTagged(a, tag, init, [[tag], IntToString(x)] + b);
      var j := |a| + 2 * |init|;
      assert toks[j] == [tag] && toks[j + 1] == IntToString(x);
      ParseIntToString(x);
      assert init + [x] == xs;
    }
  }

  /** fromString(toString()) restores p and the four lists of a proof whose
      lists have equal length, derives q from p, and leaves c null. */
  lemma ParseRender(st: ProofState)
    requires st.p.Some?
    requires |st.zs| == |st.ys| && |st.ss| == |st.ys| && |st.cs| == |st.ys|
    ensures ParseProof(Render(st)) == Ok(st.(q := Some(SubPrime(st.p.value)), c := None))
  {
    TokensOfRender(st);
    ParseTokensOfProof(st);
  }

  /** The token list of a rendered proof with a non-null p. */
  function ProofTokens(st: ProofState): seq<string>
    requires st.p.Some?
  {
    ["p", IntToString(st.p.value)] + TaggedTokens('y', st.ys) + TaggedTokens('z', st.zs)
      + TaggedTokens('s', st.ss) + TaggedTokens('c', st.cs)
  }

  lemma ParseTokensOfProof(st: ProofState)
    requires st.p.Some?
    requires |st.zs| == |st.ys| && |st.ss| == |st.ys| && |st.cs| == |st.ys|
    ensures ParseTokenList(ProofTokens(st)) == Ok(st.(q := Some(SubPrime(st.p.value)), c := None))
  {
    var n := |st.ys|;
    var toks := ProofTokens(st);
    assert |toks| == 2 + 8 * n;
    assert toks[0] == "p" && toks[1] == IntToString(st.p.value);
    ParseIntToString(st.p.value);
    ProofTokensY(st);
    ProofTokensZ(st);
    ProofTokensS(st);
    ProofTokensC(st);
    ParseTokenListOk(toks, n, st.p.value, st.ys, st.zs, st.ss, st.cs);
  }

  lemma ProofTokensY(st: ProofState)
    requires st.p.Some?
    ensures ParsePairs(ProofTokens(st), 2, |st.ys|, 'y') == Some(st.ys)
  {
    var head := ["p", IntToString(st.p.value)];
    var rest := TaggedTokens('z', st.zs) + TaggedTokens('s', st.ss) + TaggedTokens('c', st.cs);
    assert ProofTokens(st) == head + TaggedTokens('y', st.ys) + rest;
    ParsePairsTagged(head, 'y', st.ys, rest);
  }

  lemma ProofTokensZ(st: ProofState)
    requires st.p.Some? && |st.zs| == |st.ys|
    ensures ParsePairs(ProofTokens(st), 2 + 2 * |st.ys|, |st.ys|, 'z') == Some(st.zs)
  {
    var head := ["p", IntToString(st.p.value)] + TaggedTokens('y', st.ys);
    var rest := TaggedTokens('s', st.ss) + TaggedTokens('c', st.cs);
    assert ProofTokens(st) == head + TaggedTokens('z', st.zs) + rest;
    ParsePairsTagged(head, 'z', st.zs, rest);
  }

  lemma ProofTokensS(st: ProofState)
    requires st.p.Some? && |st.zs| == |st.ys| && |st.ss| == |st.ys|
    ensures ParsePairs(ProofTokens(st), 2 + 4 * |st.ys|, |st.ys|, 's') == Some(st.ss)
  {
    var head := ["p", IntToString(st.p.value)] + TaggedTokens('y', st.ys) + TaggedTokens('z', st.zs);
    var rest := TaggedTokens('c', st.cs);
    assert ProofTokens(st) == head + TaggedTokens('s', st.ss) + rest;
    ParsePairsTagged(head, 's', st.ss, rest);
  }

  lemma ProofTokensC(st: ProofState)
    requires st.p.Some? && |st.zs| == |st.ys| && |st.ss| == |st.ys| && |st.cs| == |st.ys|
    ensures ParsePairs(ProofTokens(st), 2 + 6 * |st.ys|, |st.ys|, 'c') == Some(st.cs)
  {
    var head := ["p", IntToString(st.p.value)] + TaggedTokens('y', st.ys) + TaggedTokens('z', st.zs) + TaggedTokens('s', st.ss);
    assert ProofTokens(st) == head + TaggedTokens('c', st.cs) + [];
    ParsePairsTagged(head, 'c', st.cs, []);
  }

  /** ParseTokenList succeeds on a token list of the right length whose parts parse. */
  lemma ParseTokenListOk(toks: seq<string>, n: nat, p: int, ys: seq<int>, zs: seq<int>, ss: seq<int>, cs: seq<int>)
    requires |toks| == 2 + 8 * n && toks[0] == "p" && ParseBigInteger(toks[1]) == Some(p)
    requires ParsePairs(toks, 2, n, 'y') == Some(ys) && ParsePairs(toks, 2 + 2 * n, n, 'z') == Some(zs)
    requires ParsePairs(toks, 2 + 4 * n, n, 's') == Some(ss) && ParsePairs(toks, 2 + 6 * n, n, 'c') == Some(cs)
    ensures ParseTokenList(toks) == Ok(ProofState(Some(p), Some(SubPrime(p)), None, ys, zs, ss, cs))
  {
    assert JavaRem(8 * n, 8) == 0 && JavaDiv(8 * n, 8) == n;
  }

  /** A successful ParsePairs read exactly n well-tagged pairs. */
  lemma {:induction false} ParsePairsSome(toks: seq<string>, start: nat, n: nat, tag: char)
    requires ParsePairs(toks, start, n, tag).Some?
    ensures |ParsePairs(toks, start, n, tag).value| == n
    ensures n > 0 ==> start + 2 * n <= |toks|
    ensures forall i :: 0 <= i < n ==>
      toks[start + 2 * i] == [tag] && ParseBigInteger(toks[start + 2 * i + 1]) == Some(ParsePairs(toks, start, n, tag).value[i])
    decreases n
  {
    if n > 0 {
      var j := start + 2 * (n - 1);
      ParsePairsSome(toks, start, n - 1, tag);
    }
  }

  /** What fromString accepts: a token count of 2 + 8 * count, "p" and a
      number, then count pairs tagged y, count tagged z, count tagged s and
      count tagged c, in that order. */
  lemma ParseProofAccepts(s: string)
    requires ParseProof(s).Ok?
    ensures var toks := Tokens(s, Delims, true);
      var n := |ParseProof(s).value.ys|;
      |toks| == 2 + 8 * n && toks[0] == "p" && ParseBigInteger(toks[1]) == ParseProof(s).value.p &&
      |ParseProof(s).value.zs| == n && |ParseProof(s).value.ss| == n && |ParseProof(s).value.cs| == n &&
      (forall i :: 0 <= i < n ==> toks[2 + 2 * i] == "y" && toks[2 + 2 * n + 2 * i] == "z" &&
                                   toks[2 + 4 * n + 2 * i] == "s" && toks[2 + 6 * n + 2 * i] == "c")
  {
    ParseTokenListAccepts(Tokens(s, Delims, true));
  }

  lemma ParseTokenListAccepts(toks: seq<string>)
    requires ParseTokenList(toks).Ok?
    ensures var st := ParseTokenList(toks).value;
      var n := |st.ys|;
      |toks| == 2 + 8 * n && toks[0] == "p" && ParseBigInteger(toks[1]) == st.p &&
      |st.zs| == n && |st.ss| == n && |st.cs| == n &&
      (forall i :: 0 <= i < n ==> toks[2 + 2 * i] == "y" && toks[2 + 2 * n + 2 * i] == "z" &&
                                   toks[2 + 4 * n + 2 * i] == "s" && toks[2 + 6 * n + 2 * i] == "c")
  {
    var count := ParseTokenListParts(toks);
    var st := ParseTokenList(toks).value;
    ListsTags(toks, count, st.ys, st.zs, st.ss, st.cs);
  }

  /** Four runs of count pairs after the head, tagged y, z, s and c. */
  lemma ListsTags(toks: seq<string>, count: nat, ys: seq<int>, zs: seq<int>, ss: seq<int>, cs: seq<int>)
    requires ParsePairs(toks, 2, count, 'y') == Some(ys) && ParsePairs(toks, 2 + 2 * count, count, 'z') == Some(zs)
    requires ParsePairs(toks, 2 + 4 * count, count, 's') == Some(ss) && ParsePairs(toks, 2 + 6 * count, count, 'c') == Some(cs)
    ensures |ys| == count && |zs| == count && |ss| == count && |cs| == count
    ensures forall i :: 0 <= i < count ==>
      toks[2 + 2 * i] == "y" && toks[2 + 2 * count + 2 * i] == "z" &&
      toks[2 + 4 * count + 2 * i] == "s" && toks[2 + 6 * count + 2 * i] == "c"
  {
    PairsTags(toks, 2, count, 'y');
    PairsTags(toks, 2 + 2 * count, count, 'z');
    PairsTags(toks, 2 + 4 * count, count, 's');
    PairsTags(toks, 2 + 6 * count, count, 'c');
  }

  /** The parts a successful ParseTokenList read. */
  lemma ParseTokenListParts(toks: seq<string>) returns (count: nat)
    requires ParseTokenList(toks).Ok?
    ensures var st := ParseTokenList(toks).value;
      |toks| == 2 + 8 * count && toks[0] == "p" && ParseBigInteger(toks[1]) == st.p &&
      ParsePairs(toks, 2, count, 'y') == Some(st.ys) && ParsePairs(toks, 2 + 2 * count, count, 'z') == Some(st.zs) &&
      ParsePairs(toks, 2 + 4 * count, count, 's') == Some(st.ss) && ParsePairs(toks, 2 + 6 * count, count, 'c') == Some(st.cs)
  {
    count := JavaDiv(|toks| - 2, 8);
    assert |toks| - 2 == 8 * count;
  }

  lemma PairsTags(toks: seq<string>, start: nat, n: nat, tag: char)
    requires ParsePairs(toks, start, n, tag).Some?
    ensures |ParsePairs(toks, start, n, tag).value| == n
    ensures forall i :: 0 <= i < n ==> start + 2 * i < |toks| && toks[start + 2 * i] == [tag]
  {
    ParsePairsSome(toks, start, n, tag);
  }

  // ---- S-expression form -----------------------------------------------

  /** The head atom of a proof's s-expression. */
  const Head: string := "membership-proof"

  /** toASE(): ("membership-proof" p (ys) (zs) (ss) (cs)); a null p throws. */
  function ToASE(st: ProofState, ai: Codec<int>): Result<SExpr> {
    if st.p.None? then Err("NullPointerException")
    else Ok(Lst([Str(Head), ai.enc(st.p.value), Lst(EncodeAll(ai, st.ys)), Lst(EncodeAll(ai, st.zs)),
                 Lst(EncodeAll(ai, st.ss)), Lst(EncodeAll(ai, st.cs))]))
  }

  /** fromASE(e): e must be a list whose first element prints as
      "membership-proof", whose second decodes as p and whose third to sixth
      are lists of decodable numbers, each of the four fetched and cast in
      turn; q is derived from p, c stays null. */
  function FromASE(e: SExpr, ai: Codec<int>): Result<ProofState> {
    if !e.Lst? then Err("ClassCastException")
    else if |e.items| == 0 then Err("IndexOutOfBoundsException")
    else if ToString(e.items[0]) != Head then Err("Not membership-proof")
    else if |e.items| < 2 then Err("IndexOutOfBoundsException")
    else match ai.dec(e.items[1])
      case None => Err("bad p")
      case Some(p) =>
        if |e.items| < 3 then Err("IndexOutOfBoundsException")
        else if !e.items[2].Lst? then Err("ClassCastException")
        else if |e.items| < 4 then Err("IndexOutOfBoundsException")
        else if !e.items[3].Lst? then Err("ClassCastException")
        else if |e.items| < 5 then Err("IndexOutOfBoundsException")
        else if !e.items[4].Lst? then Err("ClassCastException")
        else if |e.items| < 6 then Err("IndexOutOfBoundsException")
        else if !e.items[5].Lst? then Err("ClassCastException")
        else
          var ys := DecodeAll(ai, e.items[2].items);
          var zs := DecodeAll(ai, e.items[3].items);
          var ss := DecodeAll(ai, e.items[4].items);
          var cs := DecodeAll(ai, e.items[5].items);
          if ys.None? || zs.None? || ss.None? || cs.None? then Err("bad element")
          else Ok(ProofState(Some(p), Some(SubPrime(p)), None, ys.value, zs.value, ss.value, cs.value))
  }

  /** fromASE(toASE()) restores p and the four lists, whatever their lengths,
      derives q from p and leaves c null. */
  lemma FromToASE(st: ProofState, ai: Codec<int>)
    requires st.p.Some? && RoundTrips(ai)
    ensures ToASE(st, ai).Ok?
    ensures FromASE(ToASE(st, ai).value, ai) == Ok(st.(q := Some(SubPrime(st.p.value)), c := None))
  {
    assert ai.dec(ai.enc(st.p.value)) == Some(st.p.value);
    DecodeEncodeAll(ai, st.ys);
    DecodeEncodeAll(ai, st.zs);
    DecodeEncodeAll(ai, st.ss);
    DecodeEncodeAll(ai, st.cs);
  }

  /** What fromASE accepts: a list of at least six elements headed by
      "membership-proof" whose third to sixth elements are lists, one number
      read per element of each. */
  lemma FromASEAccepts(e: SExpr, ai: Codec<int>)
    requires FromASE(e, ai).Ok?
    ensures e.Lst? && |e.items| >= 6 && ToString(e.items[0]) == Head
    ensures ai.dec(e.items[1]) == FromASE(e, ai).value.p
    ensures e.items[2].Lst? && |FromASE(e, ai).value.ys| == |e.items[2].items|
    ensures e.items[3].Lst? && |FromASE(e, ai).value.zs| == |e.items[3].items|
    ensures e.items[4].Lst? && |FromASE(e, ai).value.ss| == |e.items[4].items|
    ensures e.items[5].Lst? && |FromASE(e, ai).value.cs| == |e.items[5].items|
  {
  }
}

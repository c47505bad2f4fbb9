/** Four of the network events of votebox/events: how each is written as an
    s-expression (toSExp), how its matcher reads one back (MATCHER.match),
    and what firing it tells a listener. A decoder that throws gives Err
    with the exception's name; one that answers null gives Ok(None). */
module VoteEvents {
  import opened Wrappers
  import opened Numeric
  import opened Bytes
  import opened SExp

  /** StringExpression.getBytesCopy() of an atom: the atom's bytes, one per
      character; a character above 255 keeps its low eight bits. */
  function AtomBytesCopy(s: string): (bs: seq<byte>)
    ensures |bs| == |s|
    ensures IsByteString(s) ==> bs == StringToBytes(s)
  {
    seq(|s|, i requires 0 <= i < |s| => (s[i] as int) % 256)
  }

  /** A call a listener received, in the order received. */
  datatype Notice =
    | CommitBallotNotice(commit: CommitBallotEvent)
    | BallotPrintSuccessNotice(printed: PrintSuccessEvent)

  /** A VoteBoxEventListener, reduced to the calls it has been given. */
  class Listener {
    var notices: seq<Notice>

    constructor ()
      ensures notices == []
    {
      notices := [];
    }

    /** commitBallot(e) */
    method CommitBallot(e: CommitBallotEvent)
      modifies this
      ensures notices == old(notices) + [CommitBallotNotice(e)]
    {
      notices := notices + [CommitBallotNotice(e)];
    }

    /** ballotPrintSuccess(e) */
    method BallotPrintSuccess(e: PrintSuccessEvent)
      modifies this
      ensures notices == old(notices) + [BallotPrintSuccessNotice(e)]
    {
      notices := notices + [BallotPrintSuccessNotice(e)];
    }
  }

  // ---------------------------------------------------------------------
  // CommitBallotEvent
  // ---------------------------------------------------------------------

  const CommitTag := "commit-ballot"

  /** The fields of an ABallotEvent as a commit carries them; the nonce is
      kept as an expression. */
  datatype CommitBallotEvent = CommitBallotEvent(serial: int32, nonce: SExpr, ballot: seq<byte>,
                                                 bid: string, precinct: string)

  /** The pattern (commit-ballot %nonce:#string %ballot:#any %bid:#string
      %precinct:#string). */
  predicate CommitPattern(e: SExpr) {
    e.Lst? && |e.items| == 5 && e.items[0] == Str(CommitTag) &&
    e.items[1].Str? && e.items[3].Str? && e.items[4].Str?
  }

  /** StringExpression.makeVerbatim reads bytes as a verbatim s-expression
      stream (None where it throws InvalidVerbatimStreamException);
      toVerbatim writes an expression back as that stream. */
  datatype VerbatimCodec = VerbatimCodec(parse: seq<byte> -> Option<SExpr>, render: SExpr -> seq<byte>)

  /** Writing back what was read from a stream gives that stream. */
  ghost predicate RendersParsed(vc: VerbatimCodec) {
    forall bs :: vc.parse(bs).Some? ==> vc.render(vc.parse(bs).value) == bs
  }

  /** toSExp: the tag, the nonce, the ballot read as a verbatim expression,
      the ballot id and the precinct; a ballot that is no verbatim stream
      becomes a RuntimeException. */
  function CommitToSExp(ev: CommitBallotEvent, vc: VerbatimCodec): (r: Result<SExpr>)
    ensures r.Ok? <==> vc.parse(ev.ballot).Some?
    ensures r.Ok? ==> (CommitPattern(r.value) <==> ev.nonce.Str?)
    ensures r.Ok? ==> r.value.Lst? && |r.value.items| == 5 && r.value.items[1] == ev.nonce
  {
    match vc.parse(ev.ballot)
    case None => Err("RuntimeException")
    case Some(b) => Ok(Lst([Str(CommitTag), ev.nonce, b, Str(ev.bid), Str(ev.precinct)]))
  }

  /** MATCHER.match as written: the pattern is tried first, but the input is
      then cast to a list and read at positions 0 to 3, the ballot cast to
      an atom, before the outcome of the match is looked at. */
  function CommitMatchAsWritten(serial: int32, e: SExpr): (r: Result<Option<CommitBallotEvent>>)
    ensures r.Err? <==> !(e.Lst? && |e.items| >= 4 && e.items[1].Str?)
    ensures r.Ok? ==> (r.value.Some? <==> CommitPattern(e))
    ensures r.Ok? && r.value.Some? ==> r.value.value.nonce == e.items[0] && r.value.value.serial == serial
  {
    if !e.Lst? then Err("ClassCastException")
    else if |e.items| < 2 then Err("IndexOutOfBoundsException")
    else if e.items[1].Lst? then Err("ClassCastException")
    else if |e.items| < 4 then Err("IndexOutOfBoundsException")
    else if CommitPattern(e) then
      Ok(Some(CommitBallotEvent(serial, e.items[0], AtomBytesCopy(e.items[1].s),
                                ToString(e.items[2]), ToString(e.items[3]))))
    else Ok(None)
  }

  /** Decoding an encoded commit with the matcher as written shifts every
      field by one place: the nonce becomes the tag, the ballot the bytes of
      the nonce, the ballot id the printed ballot and the precinct the ballot
      id; the event comes back only if its nonce is the tag itself and its
      precinct equals its ballot id. */
  lemma CommitAsWrittenShifts(ev: CommitBallotEvent, vc: VerbatimCodec)
    requires CommitToSExp(ev, vc).Ok? && ev.nonce.Str?
    ensures var d := CommitMatchAsWritten(ev.serial, CommitToSExp(ev, vc).value);
      d.Ok? && d.value.Some? &&
      d.value.value == CommitBallotEvent(ev.serial, Str(CommitTag), AtomBytesCopy(ev.nonce.s),
                                         ToString(vc.parse(ev.ballot).value), ev.bid) &&
      (d.value.value == ev ==> ev.nonce == Str(CommitTag) && ev.precinct == ev.bid)
  {
  }

  /** A concrete commit that the matcher as written does not give back. */
  lemma CommitAsWrittenCounterexample(vc: VerbatimCodec, bs: seq<byte>)
    requires vc.parse(bs).Some?
    ensures var ev := CommitBallotEvent(0, Str("12345"), bs, "B1", "P1");
      CommitToSExp(ev, vc).Ok? &&
      CommitMatchAsWritten(0, CommitToSExp(ev, vc).value) != Ok(Some(ev))
  {
    var ev := CommitBallotEvent(0, Str("12345"), bs, "B1", "P1");
    CommitAsWrittenShifts(ev, vc);
    assert Str(CommitTag) != Str("12345") by {
      assert CommitTag[0] != "12345"[0];
    }
  }

  /** MATCHER.match as evidently intended: the outcome of the pattern first,
      then the four fields from positions 1 to 4, the ballot written back as
      its verbatim stream. */
  function CommitMatch(serial: int32, e: SExpr, vc: VerbatimCodec): (r: Option<CommitBallotEvent>)
    ensures r.Some? <==> CommitPattern(e)
    ensures r.Some? ==>
      r.value.serial == serial && r.value.nonce == e.items[1] &&
      r.value.bid == ToString(e.items[3]) && r.value.precinct == ToString(e.items[4])
  {
    if CommitPattern(e) then
      Some(CommitBallotEvent(serial, e.items[1], vc.render(e.items[2]), e.items[3].s, e.items[4].s))
    else None
  }

  /** With the corrected matcher, decoding an encoded commit gives it back
      exactly when its nonce is an atom (the pattern wants #string there). */
  lemma CommitRoundTrip(ev: CommitBallotEvent, vc: VerbatimCodec)
    requires RendersParsed(vc) && CommitToSExp(ev, vc).Ok?
    ensures CommitMatch(ev.serial, CommitToSExp(ev, vc).value, vc) == (if ev.nonce.Str? then Some(ev) else None)
  {
    assert vc.parse(ev.ballot).Some?;
  }

  /** fire(l): one commitBallot call carrying this event. */
  method CommitFire(ev: CommitBallotEvent, l: Listener)
    modifies l
    ensures l.notices == old(l.notices) + [CommitBallotNotice(ev)]
  {
    l.CommitBallot(ev);
  }

  // ---------------------------------------------------------------------
  // AuthorizedToCastWithNIZKsEvent
  // ---------------------------------------------------------------------

  const AuthorizedTag := "authorized-to-cast-with-nizks"

  /** The fields of the event; the final public key is of a type the model
      does not define. */
  datatype AuthorizedEvent<Key> = AuthorizedEvent(serial: int32, node: int32, nonce: seq<byte>,
                                                  precinct: string, ballot: seq<byte>, key: Key)

  /** The pattern: the tag, four atoms and any fifth element. */
  predicate AuthorizedPattern(e: SExpr) {
    e.Lst? && |e.items| == 6 && e.items[0] == Str(AuthorizedTag) &&
    e.items[1].Str? && e.items[2].Str? && e.items[3].Str? && e.items[4].Str?
  }

  /** toSExp: the tag, the node in decimal, the nonce read as a two's
      complement number in decimal, the ballot bytes, the precinct and the
      key's toASE(); an empty nonce makes new BigInteger(byte[]) throw. */
  function AuthorizedToSExp<Key>(ev: AuthorizedEvent<Key>, keys: Codec<Key>): (r: Result<SExpr>)
    ensures r.Err? <==> |ev.nonce| == 0
    ensures r.Ok? ==> AuthorizedPattern(r.value)
  {
    match BigIntegerOfBytes(ev.nonce)
    case None => Err("NumberFormatException")
    case Some(n) =>
      Ok(Lst([Str(AuthorizedTag), Str(IntToString(ev.node)), Str(IntToString(n)),
              AtomOfBytes(ev.ballot), Str(ev.precinct), keys.enc(ev.key)]))
  }

  /** MATCHER.match: null unless the pattern matches; then the node must
      parse as an int, the nonce as a BigInteger (kept as its toByteArray())
      and the fifth element as a key. */
  function AuthorizedMatch<Key>(serial: int32, e: SExpr, keys: Codec<Key>): (r: Result<Option<AuthorizedEvent<Key>>>)
    ensures r == Ok(None) <==> !AuthorizedPattern(e)
    ensures r.Ok? && r.value.Some? ==>
      var ev := r.value.value;
      ev.serial == serial && Some(ev.node) == ParseInt(e.items[1].s) &&
      Some(FromTwos(ev.nonce)) == ParseBigInteger(e.items[2].s) && Canonical(ev.nonce) &&
      ev.ballot == AtomBytesCopy(e.items[3].s) && ev.precinct == e.items[4].s &&
      Some(ev.key) == keys.dec(e.items[5])
  {
    if !AuthorizedPattern(e) then Ok(None)
    else
      match ParseInt(e.items[1].s)
      case None => Err("NumberFormatException")
      case Some(node) =>
        match ParseBigInteger(e.items[2].s)
        case None => Err("NumberFormatException")
        case Some(n) =>
          match keys.dec(e.items[5])
          case None => Err("PublicKey.fromASE failed")
          case Some(key) =>
            FromTwosToTwos(n);
            ToTwosCanonical(n);
            Ok(Some(AuthorizedEvent(serial, node, ToTwos(n), e.items[4].s, AtomBytesCopy(e.items[3].s), key)))
  }

  /** Decoding an encoded event restores the node, the ballot, the precinct
      and the key; the nonce comes back as BigInteger's own bytes for the
      same number, which are the original bytes exactly when those are
      canonical. */
  lemma AuthorizedRoundTrip<Key(!new)>(ev: AuthorizedEvent<Key>, keys: Codec<Key>)
    requires RoundTrips(keys) && |ev.nonce| >= 1
    ensures var d := AuthorizedMatch(ev.serial, AuthorizedToSExp(ev, keys).value, keys);
      d == Ok(Some(ev.(nonce := ToTwos(FromTwos(ev.nonce))))) &&
      (d == Ok(Some(ev)) <==> Canonical(ev.nonce))
  {
    ParseIntOfInt32(ev.node);
    ParseIntToString(FromTwos(ev.nonce));
    BytesStringRoundTrip(ev.ballot);
    assert keys.dec(keys.enc(ev.key)) == Some(ev.key);
    ToTwosFromTwosIff(ev.nonce);
    if Canonical(ev.nonce) {
      assert ev.(nonce := ToTwos(FromTwos(ev.nonce))) == ev;
    } else {
      assert ev.(nonce := ToTwos(FromTwos(ev.nonce))).nonce != ev.nonce;
    }
  }

  /** AdderKeyManipulator's cached final key, a global on both the voting
      machine and the supervisor (None until one is set). */
  class KeyCache<Key> {
    var cached: Option<Key>

    constructor ()
      ensures cached == None
    {
      cached := None;
    }

    /** setCachedKey(key) */
    method SetCachedKey(key: Key)
      modifies this
      ensures cached == Some(key)
    {
      cached := Some(key);
    }
  }

  /** The constructor: the event holds its fields, and the global cached
      key becomes the event's key. */
  method NewAuthorizedEvent<Key>(serial: int32, node: int32, nonce: seq<byte>, precinct: string,
                                 ballot: seq<byte>, key: Key, cache: KeyCache<Key>)
    returns (ev: AuthorizedEvent<Key>)
    modifies cache
    ensures ev == AuthorizedEvent(serial, node, nonce, precinct, ballot, key)
    ensures cache.cached == Some(key)
  {
    ev := AuthorizedEvent(serial, node, nonce, precinct, ballot, key);
    cache.SetCachedKey(key);
  }

  /** MATCHER.match with its effect on the global: an event built by the
      matcher sets the cached key to the key it decoded; a null or thrown
      outcome leaves the cache as it was. */
  method AuthorizedMatchAndCache<Key>(serial: int32, e: SExpr, keys: Codec<Key>, cache: KeyCache<Key>)
    returns (r: Result<Option<AuthorizedEvent<Key>>>)
    modifies cache
    ensures r == AuthorizedMatch(serial, e, keys)
    ensures r.Ok? && r.value.Some? ==> cache.cached == Some(r.value.value.key)
    ensures !(r.Ok? && r.value.Some?) ==> cache.cached == old(cache.cached)
  {
    r := AuthorizedMatch(serial, e, keys);
    if r.Ok? && r.value.Some? {
      var d := r.value.value;
      var ev := NewAuthorizedEvent(serial, d.node, d.nonce, d.precinct, d.ballot, d.key, cache);
      assert ev == d;
    }
  }

  // ---------------------------------------------------------------------
  // BallotPrintSuccessEvent
  // ---------------------------------------------------------------------

  const PrintSuccessTag := "ballot-print-success"

  datatype PrintSuccessEvent = PrintSuccessEvent(serial: int32, bid: string, nonce: seq<byte>)

  /** The pattern: the tag and two atoms. */
  predicate PrintSuccessPattern(e: SExpr) {
    e.Lst? && |e.items| == 3 && e.items[0] == Str(PrintSuccessTag) &&
    e.items[1].Str? && e.items[2].Str?
  }

  /** toSExp: the tag, the ballot id and the nonce read as a two's
      complement number in decimal; an empty nonce cannot be read and
      throws. */
  function PrintSuccessToSExp(ev: PrintSuccessEvent): (r: Result<SExpr>)
    ensures r.Err? <==> |ev.nonce| == 0
    ensures r.Ok? ==> PrintSuccessPattern(r.value) && r.value.items[1] == Str(ev.bid)
  {
    match BigIntegerOfBytes(ev.nonce)
    case None => Err("NumberFormatException")
    case Some(n) => Ok(Lst([Str(PrintSuccessTag), Str(ev.bid), Str(IntToString(n))]))
  }

  /** MATCHER.match: null unless the pattern matches; then the ballot id is
      the first atom and the nonce the bytes of the second read as a
      BigInteger, which throws when it is no decimal number. */
  function PrintSuccessMatch(serial: int32, e: SExpr): (r: Result<Option<PrintSuccessEvent>>)
    ensures r == Ok(None) <==> !PrintSuccessPattern(e)
    ensures r.Err? <==> PrintSuccessPattern(e) && ParseBigInteger(e.items[2].s).None?
    ensures r.Ok? && r.value.Some? ==>
      r.value.value.serial == serial && r.value.value.bid == e.items[1].s &&
      Some(FromTwos(r.value.value.nonce)) == ParseBigInteger(e.items[2].s) && Canonical(r.value.value.nonce)
  {
    if !PrintSuccessPattern(e) then Ok(None)
    else
      match ParseBigInteger(e.items[2].s)
      case None => Err("NumberFormatException")
      case Some(n) =>
        FromTwosToTwos(n);
        ToTwosCanonical(n);
        Ok(Some(PrintSuccessEvent(serial, e.items[1].s, ToTwos(n))))
  }

  /** Decoding an encoded event keeps the ballot id, and gives the nonce
      back exactly when it is canonical two's complement. */
  lemma PrintSuccessRoundTrip(ev: PrintSuccessEvent)
    requires |ev.nonce| >= 1
    ensures var d := PrintSuccessMatch(ev.serial, PrintSuccessToSExp(ev).value);
      d == Ok(Some(ev.(nonce := ToTwos(FromTwos(ev.nonce))))) &&
      (d == Ok(Some(ev)) <==> Canonical(ev.nonce))
  {
    ParseIntToString(FromTwos(ev.nonce));
    ToTwosFromTwosIff(ev.nonce);
    if Canonical(ev.nonce) {
      assert ev.(nonce := ToTwos(FromTwos(ev.nonce))) == ev;
    } else {
      assert ev.(nonce := ToTwos(FromTwos(ev.nonce))).nonce != ev.nonce;
    }
  }

  /** fire(l): one ballotPrintSuccess call carrying this event. */
  method PrintSuccessFire(ev: PrintSuccessEvent, l: Listener)
    modifies l
    ensures l.notices == old(l.notices) + [BallotPrintSuccessNotice(ev)]
  {
    l.BallotPrintSuccess(ev);
  }

  // ---------------------------------------------------------------------
  // BallotScanRejectedEvent
  // ---------------------------------------------------------------------

  const ScanRejectedTag := "ballot-rejected"

  /** The constructor drops the serial it is given: only the ballot id is
      kept. */
  datatype ScanRejectedEvent = ScanRejectedEvent(bid: string)

  /** getSerial() */
  function ScanRejectedSerial(ev: ScanRejectedEvent): int {
    -1
  }

  predicate ScanRejectedPattern(e: SExpr) {
    e.Lst? && |e.items| == 2 && e.items[0] == Str(ScanRejectedTag) && e.items[1].Str?
  }

  /** toSExp: the tag and the ballot id. */
  function ScanRejectedToSExp(ev: ScanRejectedEvent): (r: SExpr)
    ensures ScanRejectedPattern(r) && r.items[1] == Str(ev.bid)
  {
    Lst([Str(ScanRejectedTag), Str(ev.bid)])
  }

  /** MATCHER.match: the event for the matched ballot id, or null. */
  function ScanRejectedMatch(serial: int32, e: SExpr): (r: Option<ScanRejectedEvent>)
    ensures r.Some? <==> ScanRejectedPattern(e)
    ensures r.Some? ==> Str(r.value.bid) == e.items[1]
  {
    if ScanRejectedPattern(e) then Some(ScanRejectedEvent(e.items[1].s)) else None
  }

  /** Decoding an encoded event gives it back, whatever serial the decoder
      is handed, and its serial reads -1 whatever it was built with. */
  lemma ScanRejectedRoundTrip(ev: ScanRejectedEvent, serial: int32)
    ensures ScanRejectedMatch(serial, ScanRejectedToSExp(ev)) == Some(ev)
    ensures forall other: int32 :: ScanRejectedMatch(other, ScanRejectedToSExp(ev)) == ScanRejectedMatch(serial, ScanRejectedToSExp(ev))
    ensures ScanRejectedSerial(ScanRejectedMatch(serial, ScanRejectedToSExp(ev)).value) == -1
  {
  }

  /** fire(l) does nothing. */
  method ScanRejectedFire(ev: ScanRejectedEvent, l: Listener)
    ensures l.notices == old(l.notices)
  {
  }
}

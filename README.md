# STAR-Vote core in Dafny

This project models, and proves properties of, the deterministic core of the
STAR-Vote voting system, a Java code base. The core falls into three parts.

- **The Adder ballot-crypto layer.**
  - `MembershipProofs` and `MembershipProofCodec` model the disjunctive
    Chaum-Pedersen membership proof. It shows that an ElGamal ciphertext
    encrypts one element of a small domain, and is made non-interactive with
    a hash. The model covers its computation, its verification and its text
    and s-expression forms.
  - `Votes` models the vote: a vector of ciphertexts with a slot-wise product.
  - `BallotEncryption` models the ballot encrypter. It groups a ballot into
    race groups, encrypts each group with its proof, keeps the randomness it
    used, and decrypts with that randomness.
  - The group is the cyclic subgroup of order q = (p - 1) / 2. The `Group`
    module writes each element as its discrete logarithm, so every algebraic
    identity the proofs use holds while modular exponentiation stays out.
- **The ballot lifecycle and tally admission.**
  - `Precincts` models a precinct's committed, cast and challenged ballots.
  - `Tallier` models the challenge-delayed tallier. It keeps pending ballots
    by nonce, checks each race group's key and proof when a ballot is
    confirmed, and casts the group's vote into the election of its race ids.
- **Codecs, parsers and small helpers.**
  - `VoteEvents`: four network events and their s-expression encoders and
    matchers.
  - `AuditoriumConfig`: the key/value configuration file and the getters
    with defaults.
  - `ScannerStates`: the scanner console's inactive state.
  - `Printing`: the VVPAT printer's ballot correction, title ordering and
    page arithmetic.
  - `PrintImages`: the clear-column trimming and scaling passes of the image
    utilities.
  - `HtmlPrinting`: the HTML printout.
  - `TallyResults`: the name predicates, orderings and grouping of the
    results window.

Objects that the source updates in place are classes whose methods carry
`modifies` clauses: the membership proof, the ballot encrypter, the
tallier, the precinct, the scanner console, the HTML writer and the cached
election key. Each loop of the source is a method with invariants, proved
against a specification function. The properties are proved as lemmas
about those functions. Java's `null` and thrown exceptions are `Option` and
`Result` values.

Shared modules support the core:
- `Numeric` holds Java integer text forms and truncating division.
- `JavaStrings` holds the String and StringTokenizer behaviours the core uses.
- `Bytes` holds BigInteger's two's-complement byte arrays.
- `SExp` holds the s-expression values and the codec shape of collaborating
  classes.
- `Sequences` and `Wrappers` hold sequence facts and the Option and Result
  types.

## Model

| member | source | states |
|---|---|---|
| ScannerStates.UpdateEffects | ballotscanner/state/InactiveState.java:48-76 | mode -1 leaves the scanner inactive, 1 and 2 enter accept and reject and reset only that state's start time, 3 enters prompt, and any other mode leaves the console unchanged; messages and image are never touched |
| ScannerStates.UpdateIdempotent | ballotscanner/state/InactiveState.java:48-76 | applying the same update twice with the same clock reading is the same as applying it once |
| ScannerStates.DisplayIdempotent | ballotscanner/state/InactiveState.java:40-46 | showing the screen again changes nothing, and showing it never changes the state or either start time |
| ScannerStates.ScannerConsole.constructor | ballotscanner/state/InactiveState.java:40-46 | a console starts in the given state with no messages, no response image and no refresh requests |
| ScannerStates.ScannerConsole.ClearMessages | ballotscanner/state/InactiveState.java:41 | the message list becomes empty and every other field keeps its value |
| ScannerStates.ScannerConsole.AddMessage | ballotscanner/state/InactiveState.java:42-43 | the message is appended at the end and every other field keeps its value |
| ScannerStates.ScannerConsole.InactiveDisplayScreen | ballotscanner/state/InactiveState.java:40-46 | afterwards exactly the two fixed messages are shown, the response image is this state's image, one refresh is requested, and state and start times are unchanged |
| ScannerStates.ScannerConsole.InactiveUpdateState | ballotscanner/state/InactiveState.java:48-76 | the console afterwards is the transition-table result for the mode and clock reading, with no refresh requested |
| Precincts.CommitTotal | supervisor/model/Precinct.java:92-94 | committing a new bid adds exactly one ballot to the books and re-committing a bid replaces its ballot without adding one; the bid then maps to the new ballot |
| Precincts.MoveTotal | supervisor/model/Precinct.java:101-118 | cast and challenge succeed exactly when the bid is committed, never change the number of ballots in the books, and change nothing when they fail |
| Precincts.MovesOnce | supervisor/model/Precinct.java:103-117 | after a cast or a challenge of a bid, a second cast or challenge of that bid fails |
| Precincts.ChallengedList | supervisor/model/Precinct.java:134-144 | the list expression has one entry per challenged ballot, the i-th being that ballot's list form |
| Precincts.Precinct.constructor | supervisor/model/Precinct.java:47-58 | a new precinct has empty books and an empty allBallots |
| Precincts.Precinct.HasBID | supervisor/model/Precinct.java:64-66 | since allBallots is never written, hasBID is always false |
| Precincts.Precinct.GetBallot | supervisor/model/Precinct.java:154-156 | since allBallots is never written, getBallot always gives null |
| Precincts.Precinct.GetNonce | supervisor/model/Precinct.java:72-74 | since allBallots is never written, getNonce always dereferences null |
| Precincts.Precinct.GetCastBallotTotal | supervisor/model/Precinct.java:125-127 | succeeds exactly when some ballot was cast, and gives the first one |
| Precincts.Precinct.CommitBallot | supervisor/model/Precinct.java:92-94 | the books afterwards are the commit of the ballot under its bid; allBallots is untouched |
| Precincts.Precinct.CastBallot | supervisor/model/Precinct.java:101-106 | the books and the answer are those of the cast move: true and the ballot moved to the end of cast when the bid was committed, otherwise false and nothing changed |
| Precincts.Precinct.ChallengeBallot | supervisor/model/Precinct.java:113-118 | the same move into challenged |
| Precincts.Precinct.SpoilBallot | supervisor/model/Precinct.java:81-85 | challenges the ballot and then returns the allBallots entry, which is always null |
| Precincts.Precinct.GetChallengedBallots | supervisor/model/Precinct.java:134-144 | the loop builds exactly the challenged-ballot list expression |
| Tallier.IdTexts | supervisor/model/tallier/ChallengeDelayedWithNIZKsTallier.java:95-97 | the race ids are the texts of the vote-ids elements, one per element and in order |
| Tallier.ReadIds | supervisor/model/tallier/ChallengeDelayedWithNIZKsTallier.java:95-97 | the loop collects exactly the element texts of the vote-ids list |
| Tallier.GroupOutcomeChecks | supervisor/model/tallier/ChallengeDelayedWithNIZKsTallier.java:86-115 | a group passes only when it has its four parts, the supplied key reads like the final key and the proof verifies the vote under the final key, and it is then cast under makeId of its race ids; a key mismatch is reported only when the two keys read differently |
| Tallier.ReadGroup | supervisor/model/tallier/ChallengeDelayedWithNIZKsTallier.java:73-115 | reading one race group gives exactly that group's outcome |
| Tallier.Outcomes | supervisor/model/tallier/ChallengeDelayedWithNIZKsTallier.java:72-125 | every race group of the ballot has exactly one outcome |
| Tallier.OutcomesAt | supervisor/model/tallier/ChallengeDelayedWithNIZKsTallier.java:72-73 | the i-th outcome is the outcome of the i-th race group |
| Tallier.Passing | supervisor/model/tallier/ChallengeDelayedWithNIZKsTallier.java:72-125 | the count of leading passing groups: all groups before it pass and the group at it, if any, fails |
| Tallier.ConfirmStopsAtFirst | supervisor/model/tallier/ChallengeDelayedWithNIZKsTallier.java:72-125 | confirming reports no failure exactly when every group passes, and otherwise reports the first failing group's reason |
| Tallier.ConfirmVotes | supervisor/model/tallier/ChallengeDelayedWithNIZKsTallier.java:115-124 | each election ends with its earlier votes followed by the votes of the passing groups before the first failure that name it, in group order; other elections are unchanged |
| Tallier.CastVotes | supervisor/model/tallier/ChallengeDelayedWithNIZKsTallier.java:117-124 | casting appends the vote to its own election only |
| Tallier.ConfirmElections | supervisor/model/tallier/ChallengeDelayedWithNIZKsTallier.java:117-124 | elections are never removed and they keep their prime, and an election created while confirming gets the public key's prime |
| Tallier.ConfirmNext | supervisor/model/tallier/ChallengeDelayedWithNIZKsTallier.java:105-124 | one more group either stops confirming with its reason or is cast, while nothing has stopped yet |
| Tallier.ConfirmStops | supervisor/model/tallier/ChallengeDelayedWithNIZKsTallier.java:105-113 | once a group has stopped the ballot, later groups change nothing |
| Tallier.ConfirmGroups | supervisor/model/tallier/ChallengeDelayedWithNIZKsTallier.java:72-125 | the loop leaves the elections and the stop reason of the specification over all race groups |
| Tallier.ConfirmBallot | supervisor/model/tallier/ChallengeDelayedWithNIZKsTallier.java:54-130 | a missing ballot throws, an unreadable or non-list ballot is rejected as malformed, and otherwise the groups are confirmed as specified and the ballot is tallied exactly when none stopped |
| Tallier.ChallengeDelayedTallier.constructor | supervisor/model/tallier/ChallengeDelayedWithNIZKsTallier.java:31-33 | a new tallier has no pending ballots, no results and no cached final key, and keeps the public key |
| Tallier.ChallengeDelayedTallier.RecordVotes | supervisor/model/tallier/ChallengeDelayedWithNIZKsTallier.java:152-154 | the ballot is pending under its nonce, replacing any earlier one, and nothing else changes |
| Tallier.ChallengeDelayedTallier.Confirmed | supervisor/model/tallier/ChallengeDelayedWithNIZKsTallier.java:42-131 | the nonce is no longer pending, the final key is cached on first use, a change of the derived key is flagged, and the elections and outcome are those of confirming the ballot that was pending |
| VoteEvents.AtomBytesCopy | votebox/events/AuthorizedToCastWithNIZKsEvent.java:35-36 | the bytes of an atom, one per character, equal to the atom's byte string whenever every character fits in a byte |
| VoteEvents.Listener.constructor | votebox/events/CommitBallotEvent.java:81-83 | a listener starts having received no calls |
| VoteEvents.Listener.CommitBallot | votebox/events/CommitBallotEvent.java:82 | the listener has received one more commitBallot call, carrying the event |
| VoteEvents.Listener.BallotPrintSuccess | votebox/events/BallotPrintSuccessEvent.java:71 | the listener has received one more ballotPrintSuccess call, carrying the event |
| VoteEvents.CommitToSExp | votebox/events/CommitBallotEvent.java:89-99 | a commit is written exactly when its ballot is a verbatim stream (otherwise a RuntimeException), as a five-element list carrying the nonce second, which fits the matcher's pattern exactly when the nonce is an atom |
| VoteEvents.CommitMatchAsWritten | votebox/events/CommitBallotEvent.java:45-63 | the matcher as written throws unless its input is a list of at least four elements whose second is an atom, returns an event exactly when the pattern matches, and takes the nonce from the tag position |
| VoteEvents.CommitAsWrittenShifts | votebox/events/CommitBallotEvent.java:45-63 | decoding an encoded commit with the matcher as written shifts every field by one place, so the event comes back only if its nonce is the tag itself and its precinct equals its ballot id |
| VoteEvents.CommitAsWrittenCounterexample | votebox/events/CommitBallotEvent.java:49-55 | for every ballot stream the verbatim reader accepts, the commit with nonce "12345", that ballot, ballot id B1 and precinct P1 is encoded but not given back by the matcher as written |
| VoteEvents.CommitMatch | votebox/events/CommitBallotEvent.java:42-63 | the corrected matcher gives an event exactly when the pattern matches, with the nonce, ballot id and precinct taken from positions 1, 3 and 4 |
| VoteEvents.CommitRoundTrip | votebox/events/CommitBallotEvent.java:42-99 | with the corrected matcher, decoding an encoded commit gives it back exactly when its nonce is an atom |
| VoteEvents.CommitFire | votebox/events/CommitBallotEvent.java:81-83 | firing delivers exactly one commitBallot call carrying the event |
| VoteEvents.AuthorizedToSExp | votebox/events/AuthorizedToCastWithNIZKsEvent.java:66-80 | an event is written unless its nonce is empty, and what is written fits the matcher's pattern |
| VoteEvents.AuthorizedMatch | votebox/events/AuthorizedToCastWithNIZKsEvent.java:22-45 | null exactly when the pattern fails; a decoded event has the node parsed as an int, the nonce as BigInteger's canonical bytes of the parsed number, the ballot bytes, the precinct and the decoded key |
| VoteEvents.AuthorizedRoundTrip | votebox/events/AuthorizedToCastWithNIZKsEvent.java:22-80 | decoding an encoded event restores every field except that the nonce comes back canonical, so the event itself comes back exactly when its nonce was canonical |
| VoteEvents.KeyCache.constructor | votebox/events/AuthorizedToCastWithNIZKsEvent.java:62-63 | the cached final key starts unset |
| VoteEvents.KeyCache.SetCachedKey | votebox/events/AuthorizedToCastWithNIZKsEvent.java:63 | the cached final key becomes the given key |
| VoteEvents.NewAuthorizedEvent | votebox/events/AuthorizedToCastWithNIZKsEvent.java:57-64 | the event holds the given fields and the global cached key becomes its key |
| VoteEvents.AuthorizedMatchAndCache | votebox/events/AuthorizedToCastWithNIZKsEvent.java:27-44 | matching gives the matcher's outcome, and the cached key changes, to the decoded key, exactly when an event is built |
| VoteEvents.PrintSuccessToSExp | votebox/events/BallotPrintSuccessEvent.java:74-78 | an event is written unless its nonce is empty, fitting the pattern with the ballot id second |
| VoteEvents.PrintSuccessMatch | votebox/events/BallotPrintSuccessEvent.java:21-36 | null exactly when the pattern fails, a throw exactly when the nonce atom is no decimal number, and otherwise the ballot id and the canonical bytes of the parsed nonce |
| VoteEvents.PrintSuccessRoundTrip | votebox/events/BallotPrintSuccessEvent.java:21-78 | decoding an encoded event keeps the ballot id and gives the event back exactly when its nonce was canonical |
| VoteEvents.PrintSuccessFire | votebox/events/BallotPrintSuccessEvent.java:70-72 | firing delivers exactly one ballotPrintSuccess call carrying the event |
| VoteEvents.ScanRejectedToSExp | votebox/events/BallotScanRejectedEvent.java:72-81 | the written event fits the pattern and carries the ballot id |
| VoteEvents.ScanRejectedMatch | votebox/events/BallotScanRejectedEvent.java:21-34 | an event exactly when the pattern matches, carrying the matched ballot id |
| VoteEvents.ScanRejectedRoundTrip | votebox/events/BallotScanRejectedEvent.java:21-81 | decoding an encoded event gives it back whatever serial the decoder is handed, and its serial always reads -1 |
| VoteEvents.ScanRejectedFire | votebox/events/BallotScanRejectedEvent.java:64-66 | firing delivers nothing to the listener |
| MembershipProofs.Commit | crypto/adder/MembershipProof.java:104-136 | after n passes of the domain loop each of the four lists has grown by exactly n entries and p, q and c are unchanged |
| MembershipProofs.LastIndex | crypto/adder/MembershipProof.java:101-118 | indexInDomain is the last position holding the value, with no later match, and 0 when the value is not in the domain |
| MembershipProofs.LastIndexSnoc | crypto/adder/MembershipProof.java:111-117 | one more pass moves indexInDomain to the current position exactly when that domain element equals the value |
| MembershipProofs.Interleave | crypto/adder/MembershipProof.java:134-135 | the appended commitments are twice as many as the slots, y of slot i at position 2i and z at position 2i+1 |
| MembershipProofs.Challenge | crypto/adder/MembershipProof.java:138-141 | the challenge lies in Z_q |
| MembershipProofs.SumUpdate | crypto/adder/MembershipProof.java:144-148 | replacing one entry of the c list changes its sum by the difference |
| MembershipProofs.CommitFreshAt | crypto/adder/MembershipProof.java:111-132 | in a proof whose lists started empty, the real slot holds g^t, h^t and zero placeholders, and a fake slot holds its random s and c and the commitments to them |
| MembershipProofs.FinishSets | crypto/adder/MembershipProof.java:141-148 | when both sets succeed only the real slot's s and c change, to realC * r + t and realC, and p, q and c are set |
| MembershipProofs.FinishSum | crypto/adder/MembershipProof.java:141-148 | answering a slot whose c placeholder is 0 makes the c list sum to the challenge mod q |
| MembershipProofs.ComputeFreshShape | crypto/adder/MembershipProof.java:73-149 | compute on a new proof leaves one entry per domain element in every list, sets p, q and a challenge in Z_q, and completes exactly when the domain is not empty |
| MembershipProofs.ComputeKeepsCommitments | crypto/adder/MembershipProof.java:138-148 | compute changes no commitment after the domain loop |
| MembershipProofs.ComputeFreshAnswers | crypto/adder/MembershipProof.java:111-148 | after compute only the slot of the last occurrence of the value is answered, with realC and realC * r + t; fake slots keep their random s and c and other real slots their zeros |
| MembershipProofs.CListSum | crypto/adder/MembershipProof.java:141-148 | when the value is in the domain, compute completes and the c list sums to the challenge mod q |
| MembershipProofs.RealSlot | crypto/adder/MembershipProof.java:115-116 | recomputing a commitment from the answer s = c * r + t under B = base^r gives base^t again |
| MembershipProofs.StripMessage | crypto/adder/MembershipProof.java:126-128 | dividing H by f^value leaves h^r for an encryption of value under r |
| MembershipProofs.RealSlots | crypto/adder/MembershipProof.java:147-148 | the answered real slot of an honest encryption recomputes to g^t and h^t |
| MembershipProofs.RecomputeSlots | crypto/adder/MembershipProof.java:182-193 | with the fake slots as committed and the real slot answered consistently, verify recomputes exactly the committed y and z lists |
| MembershipProofs.RecomputeFresh | crypto/adder/MembershipProof.java:73-193 | the commitments verify recomputes from an honest fresh proof are the ones compute hashed |
| MembershipProofs.Completeness | crypto/adder/MembershipProof.java:73-199 | an honestly computed proof that an encryption of a value occurring once in the domain is in the domain verifies under the same key, ciphertext, domain and hash |
| MembershipProofs.MembershipProof.constructor | crypto/adder/MembershipProof.java:33-39 | a new proof has null p, q and c and four empty lists |
| MembershipProofs.MembershipProof.FromParts | crypto/adder/MembershipProof.java:52-61 | the private constructor keeps the given p, q and lists and leaves c null |
| MembershipProofs.MembershipProof.Compute | crypto/adder/MembershipProof.java:73-149 | the new proof state and the completion flag are those of the compute specification |
| MembershipProofs.MembershipProof.Answer | crypto/adder/MembershipProof.java:141-148 | c is set, realC computed and the real slot answered, as far as the sets succeed |
| MembershipProofs.MembershipProof.CommitAll | crypto/adder/MembershipProof.java:96-136 | the domain loop leaves the state of the specification, indexInDomain at the last match and the transcript g, h, G, H and the new commitments |
| MembershipProofs.MembershipProof.AppendSlot | crypto/adder/MembershipProof.java:106-132 | one pass appends one slot as the specification says and returns its y and z |
| MembershipProofs.MembershipProof.Verify | crypto/adder/MembershipProof.java:160-199 | verify overwrites p and q with the key's and answers as the verify specification does |
| MembershipProofs.VerifyLists | crypto/adder/MembershipProof.java:171-198 | the loop of verify throws when the domain or s list is shorter than the c list, and otherwise answers whether the c's sum to the recomputed challenge mod q |
| MembershipProofs.SubtractAll | crypto/adder/MembershipProof.java:142-145 | realC is the challenge minus every entry of the c list, in Z_q |
| MembershipProofs.RecSnoc | crypto/adder/MembershipProof.java:182-193 | one more slot extends the recomputed lists by its y and z |
| MembershipProofs.TranscriptSnoc | crypto/adder/MembershipProof.java:134-135 | appending a slot's y and z extends the transcript by those two elements |
| MembershipProofs.MembershipProof.ToString | crypto/adder/MembershipProof.java:287-315 | the text is the rendering of the proof state |
| MembershipProofs.AppendTagged | crypto/adder/MembershipProof.java:294-312 | each StringBuilder loop appends the tag and decimal of every list element in order |
| MembershipProofs.TaggedSnoc | crypto/adder/MembershipProof.java:294-297 | one more element appends its tag and its decimal |
| MembershipProofs.MembershipProof.FromString | crypto/adder/MembershipProof.java:208-280 | fromString succeeds exactly when the parse specification does, with a new proof in the parsed state |
| MembershipProofs.ReadProof | crypto/adder/MembershipProof.java:224-277 | reading the lists after the head succeeds exactly when the token-list specification does, with the same state |
| MembershipProofs.ReadTagged | crypto/adder/MembershipProof.java:232-239 | each tagged loop reads exactly what the pair specification reads |
| MembershipProofs.ParsePairsNoneStays | crypto/adder/MembershipProof.java:233-236 | once a tag or number is wrong, reading more pairs still fails |
| MembershipProofs.MembershipProof.ToASE | crypto/adder/MembershipProof.java:322-345 | the expression is the codec's rendering of the proof state |
| MembershipProofs.MembershipProof.FromASE | crypto/adder/MembershipProof.java:353-379 | fromASE, which fetches and casts the third to sixth elements one after another, succeeds exactly when the codec's reading does, with a new proof in the read state |
| MembershipProofCodec.TokensOfRender | crypto/adder/MembershipProof.java:287-315 | tokenizing a rendered proof on p, y, z, s and c gives the tag and decimal tokens of p and the four lists in order |
| MembershipProofCodec.ParseRender | crypto/adder/MembershipProof.java:208-315 | fromString(toString()) restores p and four lists of equal length, derives q as (p - 1) / 2 and leaves c null |
| MembershipProofCodec.ParseProofAccepts | crypto/adder/MembershipProof.java:208-280 | fromString accepts only 2 + 8 * count tokens beginning with p and its number, then count tokens tagged y, z, s and c in that order |
| MembershipProofCodec.ParseTokenListAccepts | crypto/adder/MembershipProof.java:210-277 | what a successful token-list read took: the count, the p head and the four tagged runs |
| MembershipProofCodec.PairsTags | crypto/adder/MembershipProof.java:232-239 | a successful tagged loop reads n numbers, each after its tag |
| MembershipProofCodec.FromToASE | crypto/adder/MembershipProof.java:322-379 | fromASE(toASE()) restores p and the four lists whatever their lengths, derives q from p and leaves c null |
| MembershipProofCodec.FromASEAccepts | crypto/adder/MembershipProof.java:353-379 | fromASE accepts only a list of at least six elements headed by membership-proof whose third to sixth elements are lists, one number read from each element |
| Votes.Multiply | crypto/adder/Vote.java:51-62 | multiply throws IndexOutOfBoundsException exactly when the other vote has fewer slots; otherwise the product has one slot per slot of this vote, slot i the product of both votes' slot i |
| Votes.ProductEncrypts | crypto/adder/Vote.java:51-62 | the product of two encrypted votes encrypts the slot-wise sums of their messages under the summed randomness |
| Votes.ParseAll | crypto/adder/Vote.java:93-101 | a successful parse gives one ciphertext per token |
| Votes.ParseAllFails | crypto/adder/Vote.java:93-101 | fromString fails, always with InvalidVoteException, exactly when some token is not a ciphertext |
| Votes.ParseAllErrStays | crypto/adder/Vote.java:96-100 | once a token fails, parsing every token fails with InvalidVoteException |
| Votes.ParseAllErrIsInvalid | crypto/adder/Vote.java:100 | every failure of the token loop is InvalidVoteException |
| Votes.ParseCiphers | crypto/adder/Vote.java:93-101 | the loop over the tokens gives the parse of all tokens |
| Votes.FromString | crypto/adder/Vote.java:88-104 | fromString is the vote of the space-separated tokens, each parsed as a ciphertext, or the first failure |
| Votes.ToString | crypto/adder/Vote.java:115-125 | toString is every ciphertext's text followed by a space, trimmed |
| Votes.ParseAllEncs | crypto/adder/Vote.java:88-104 | parsing the texts of ciphertexts gives them back |
| Votes.TextRoundTrip | crypto/adder/Vote.java:88-125 | fromString(toString(v)) is v when every ciphertext text is a nonempty word that parses back |
| Votes.ToASE | crypto/adder/Vote.java:134-142 | the expression is the vote head followed by the list of the ciphertexts' expressions |
| Votes.FromASE | crypto/adder/Vote.java:152-166 | fromASE fails on a non-list, a missing element, a head that is not vote or a second element that is no list of ciphertexts, and otherwise reads the vote |
| Votes.ASERoundTrip | crypto/adder/Vote.java:134-166 | fromASE(toASE(v)) is v, length and order kept |
| Votes.OfASEAccepts | crypto/adder/Vote.java:152-166 | fromASE accepts only a list headed by vote whose second element is a list, one ciphertext decoded from each of its elements |
| BallotEncryption.BallotMapOk | crypto/BallotEncrypter.java:98-110 | the id to record map is built exactly when every ballot record is a nonempty list |
| BallotEncryption.BallotMapLast | crypto/BallotEncrypter.java:98-110 | the map's keys are exactly the record ids, each mapped to the last record filed under it |
| BallotEncryption.LastWithIdNone | crypto/BallotEncrypter.java:120-121 | an id that no record carries has no record |
| BallotEncryption.BuildBallotMap | crypto/BallotEncrypter.java:98-110 | the loop fills the map of the specification, or fails on the first bad record |
| BallotEncryption.BallotMapErrStays | crypto/BallotEncrypter.java:100-110 | once a record is bad, building the whole map fails with that error |
| BallotEncryption.Records | crypto/BallotEncrypter.java:117-121 | one looked-up record per candidate id of the group, in group order, null for a missing id |
| BallotEncryption.LookupAll | crypto/BallotEncrypter.java:117-121 | the inner loop looks up exactly those records |
| BallotEncryption.Choices | crypto/BallotEncrypter.java:161-184 | a successful read gives one counter and one id per record |
| BallotEncryption.ReadChoices | crypto/BallotEncrypter.java:161-184 | the record loop reads exactly the counters and ids of the specification, or its first error |
| BallotEncryption.ChoicesErrStays | crypto/BallotEncrypter.java:161-184 | once a record is bad, reading all records fails with that error |
| BallotEncryption.EncryptValues | crypto/BallotEncrypter.java:186-188 | one ciphertext per counter |
| BallotEncryption.Randoms | crypto/BallotEncrypter.java:193-197 | the randomness list holds each ciphertext's own randomness, in order |
| BallotEncryption.ChoicesOk | crypto/BallotEncrypter.java:161-184 | the records are read exactly when each one reads as a choice, and record i then gives counter i and id i |
| BallotEncryption.SubBallotShape | crypto/BallotEncrypter.java:154-223 | a sub-ballot is built exactly when every record is readable; it is then (vote, vote-ids, proof, public-key) with the ids in record order and the final key, and its randomness list holds each slot's randomness |
| BallotEncryption.SubBallotVote | crypto/BallotEncrypter.java:186-217 | the vote of a sub-ballot reads back through Vote.fromASE as the encryptions of the counters under the final key |
| BallotEncryption.Groups | crypto/BallotEncrypter.java:114-131 | when every group succeeds there is one sub-ballot and one randomness list per group, and never more randomness lists than groups |
| BallotEncryption.GroupsErrStays | crypto/BallotEncrypter.java:114-131 | once a group has failed, later groups change nothing |
| BallotEncryption.GroupsOk | crypto/BallotEncrypter.java:114-131 | the group loop succeeds exactly when every group's sub-ballot can be built |
| BallotEncryption.GroupsValues | crypto/BallotEncrypter.java:114-131 | after a successful group loop, entry g of both outcomes is the sub-ballot and randomness list of group g |
| BallotEncryption.EncryptShape | crypto/BallotEncrypter.java:76-142 | a successful encryptWithProof gives the sub-ballot of each race group in order followed by the encrypted write-in key, and leaves one randomness list per group, as long as the group |
| BallotEncryption.MissingIdFails | crypto/BallotEncrypter.java:120-121 | a race-group id that no ballot record carries makes encryptWithProof fail |
| BallotEncryption.BallotEncrypter.constructor | crypto/BallotEncrypter.java:61-62 | a new encrypter has every field null |
| BallotEncryption.BallotEncrypter.Clear | crypto/BallotEncrypter.java:584-588 | clear leaves no recent ballot, no randomness list and an empty list of Adder randomness |
| BallotEncryption.BallotEncrypter.EncryptWithProof | crypto/BallotEncrypter.java:76-142 | the Adder randomness and the result are those of the specification, the recent ballot becomes the result's list when it succeeds, and the plain randomness list is untouched |
| BallotEncryption.BallotEncrypter.EncryptSubBallot | crypto/BallotEncrypter.java:154-223 | a sub-ballot that cannot be built fails with its error and appends nothing; otherwise the sub-ballot is returned and its randomness list appended |
| BallotEncryption.RecentPairs | crypto/BallotEncrypter.java:552-557 | a successful read gives one pair per recent record |
| BallotEncryption.RecentPairsOk | crypto/BallotEncrypter.java:546-560 | getRecentRandom succeeds exactly when every recent record is a nonempty list with a random value for each, entry i pairing record i's uid with random value i |
| BallotEncryption.RecentPairsErrStays | crypto/BallotEncrypter.java:552-557 | once a pair fails, the whole loop fails |
| BallotEncryption.BallotEncrypter.RecentRandomList | crypto/BallotEncrypter.java:546-560 | the method returns the list of those pairs, and fails, a null field throwing, where the specification does |
| BallotEncryption.DecryptSublist | crypto/BallotEncrypter.java:451-495 | a decrypted sublist has one message per ciphertext |
| BallotEncryption.DecryptSlotCorrect | crypto/BallotEncrypter.java:460-489 | whoever holds r recovers a 0 or 1 message from its encryption, provided f is not the identity |
| BallotEncryption.MessageBase | crypto/BallotEncrypter.java:474-482 | f^0 is the identity and f^1 is f |
| BallotEncryption.PowReduce | crypto/BallotEncrypter.java:466 | an exponent acts modulo q |
| BallotEncryption.SlotSameR | crypto/BallotEncrypter.java:466-471 | two exponents with equal powers of g and h open a slot alike |
| BallotEncryption.DecryptSublistCorrect | crypto/BallotEncrypter.java:451-495 | adderDecryptSublist with the randomness each ciphertext carries gives back every 0/1 message |
| BallotEncryption.SubBallotDecrypts | crypto/BallotEncrypter.java:154-223 | the sub-ballots encryptWithProof builds decrypt, with the randomness it kept, to their 0/1 counters |
| BallotEncryption.DecryptSublistNull | crypto/BallotEncrypter.java:460-494 | adderDecryptSublist returns null exactly when some slot's r does not open it, and otherwise slot i's message |
| BallotEncryption.DecryptSublistStops | crypto/BallotEncrypter.java:466-487 | after the first failure the loop's outcome no longer changes |
| BallotEncryption.AdderDecryptSublist | crypto/BallotEncrypter.java:451-495 | the index loop gives the outcome of the specification |
| BallotEncryption.DecryptPairs | crypto/BallotEncrypter.java:517-537 | a successful loop gives one pair per record |
| BallotEncryption.DecryptPairsOk | crypto/BallotEncrypter.java:517-537 | the iterator loop succeeds exactly when every pair of records decrypts |
| BallotEncryption.DecryptPairsValues | crypto/BallotEncrypter.java:517-537 | after a successful loop, entry i is the decryption of record pair i |
| BallotEncryption.DecryptPairsErrStays | crypto/BallotEncrypter.java:517-537 | once a pair fails, the loop fails with that error |
| BallotEncryption.DecryptKeepsUids | crypto/BallotEncrypter.java:505-539 | decrypt succeeds only on lists of equal size whose records carry the same uid at every position, and keeps that uid order with one decrypted pair per record |
| BallotEncryption.DecryptUidMismatch | crypto/BallotEncrypter.java:521-523 | a uid mismatch at any position makes decrypt fail |
| BallotEncryption.Decrypt | crypto/BallotEncrypter.java:505-539 | decrypt returns the list of the specification's pairs, or fails with its error |
| BallotEncryption.DecryptPairReadsC1First | crypto/BallotEncrypter.java:525-528 | a record (uid (x)) whose x is not a number fails with NumberFormatException, not IndexOutOfBoundsException: each cipher text is parsed as soon as it is fetched |
| BallotEncryption.StripParens | crypto/BallotEncrypter.java:436 | a stripped piece holds no parenthesis and only characters of the piece |
| BallotEncryption.ParseIds | crypto/BallotEncrypter.java:431-440 | one id per space-separated piece, each without parentheses |
| BallotEncryption.ParseIdList | crypto/BallotEncrypter.java:431-440 | the loop gives exactly those ids |
| BallotEncryption.ParseIdsOfList | crypto/BallotEncrypter.java:431-440 | parseIds reads back the ids of a vote-ids list whose ids hold no space and no parenthesis |
| BallotEncryption.KeyRowsOfList | crypto/BallotEncrypter.java:411-429 | the rows of an entry keyed by the text of a vote-ids list pair each id with its plaintext, in id order |
| BallotEncryption.TraditionalRows | crypto/BallotEncrypter.java:411-429 | toTraditionalFormat succeeds exactly when every entry has a plaintext list at least as long as its id list, and then emits the rows of the keys in order |
| BallotEncryption.TraditionalErrStays | crypto/BallotEncrypter.java:414-426 | once an entry fails, the whole format fails |
| BallotEncryption.EntryRows | crypto/BallotEncrypter.java:415-425 | the inner loop gives the rows of one entry; a null plaintext list throws only under a key with at least one id |
| BallotEncryption.PairRowsLoop | crypto/BallotEncrypter.java:418-425 | each id paired with the plaintext at its position, failing when there are too few plaintexts |
| BallotEncryption.ToTraditionalFormat | crypto/BallotEncrypter.java:411-429 | for an order listing each key of the map once, the result is the list of the specification's rows in that order, or fails where it does |
| AuditoriumConfig.Uncommented | votebox/AuditoriumParams.java:471 | the text before the first '#', the whole text when there is none; the result holds no '#' |
| AuditoriumConfig.TrimBounds | votebox/AuditoriumParams.java:465 | a trimmed line is no longer than the line, holds only its characters, and begins and ends above U+0020 |
| AuditoriumConfig.KeptLineShape | votebox/AuditoriumParams.java:465-474 | a line is dropped exactly when it is blank or, trimmed, starts with '#'; a kept line is nonempty, holds no '#' and has no leading or trailing blank |
| AuditoriumConfig.ContentShape | votebox/AuditoriumParams.java:462-475 | the content list has no more entries than the file has lines, and none of them is empty or holds a '#' |
| AuditoriumConfig.ReadContent | votebox/AuditoriumParams.java:462-475 | the line loop builds exactly the content list of the specification |
| AuditoriumConfig.ContentSnoc | votebox/AuditoriumParams.java:464-475 | one more line adds its kept text, if any, at the end of the content list |
| AuditoriumConfig.PairsAt | votebox/AuditoriumParams.java:481-482 | an even content list gives half as many pairs, pair i being lines 2i and 2i+1 |
| AuditoriumConfig.PutAllLastWins | votebox/AuditoriumParams.java:481-482 | a key is in the map exactly when some pair has it, and its value is that of the last such pair |
| AuditoriumConfig.PutPairs | votebox/AuditoriumParams.java:481-482 | the pair loop puts every pair of the content list into the map in order |
| AuditoriumConfig.Read | votebox/AuditoriumParams.java:457-489 | read gives the configuration of the specification: empty when the file cannot be read, an error for an odd number of content lines, and otherwise the pairs put in order |
| AuditoriumConfig.ReadLastWins | votebox/AuditoriumParams.java:457-489 | read fails exactly on an odd number of content lines; otherwise a key is configured exactly when some even content line is that key, with the value after its last occurrence |
| AuditoriumConfig.PairsKeyIn | votebox/AuditoriumParams.java:481-482 | a key is in the map exactly when some even content line holds it |
| AuditoriumConfig.PairsLastWins | votebox/AuditoriumParams.java:481-482 | the value of a key is the line after its last occurrence at an even position |
| AuditoriumConfig.StringParam | votebox/AuditoriumParams.java:155-159 | a string getter returns the configured value, and the default when the key is absent |
| AuditoriumConfig.IntParam | votebox/AuditoriumParams.java:161-165 | an integer getter fails exactly when the configured value is not an int, and otherwise returns it, or the default when the key is absent |
| AuditoriumConfig.IntParamOr | votebox/AuditoriumParams.java:286-293 | an integer getter that catches NumberFormatException returns a configured value that parses, and the default otherwise |
| AuditoriumConfig.BoolParam | votebox/AuditoriumParams.java:359-364 | a boolean getter is true exactly when the configured value is "true" ignoring case, and the default when the key is absent |
| AuditoriumConfig.Load | votebox/AuditoriumParams.java:145-153 | the constructor succeeds exactly when read does, holding the configuration read; an unreadable file gives the same empty configuration as the Singleton |
| AuditoriumConfig.EmptyGivesStringDefaults | votebox/AuditoriumParams.java:46-138 | with nothing configured every string getter returns its compiled-in default and the touch-screen device is null |
| AuditoriumConfig.EmptyGivesIntDefaults | votebox/AuditoriumParams.java:46-138 | with nothing configured every integer getter returns its compiled-in default |
| AuditoriumConfig.EmptyGivesBoolDefaults | votebox/AuditoriumParams.java:46-138 | with nothing configured every boolean getter returns its compiled-in default |
| AuditoriumConfig.UnparsableNumbers | votebox/AuditoriumParams.java:286-356 | with an unparsable value the paper and DPI getters fall back to their defaults while the port getters fail |
| AuditoriumConfig.ReadPort | votebox/AuditoriumParams.java:408-413 | after a successful read, getPort is 9700 when no pair has SERVER_PORT, and otherwise the parsed value after its last occurrence, failing when that does not parse |
| Printing.ScanFirst | printer/Printer.java:328-346 | on well-formed raw choices the choice loop for one label never throws; it finds nothing exactly when no choice marks the label, and otherwise yields the mark of the first choice that marks it |
| Printing.LabelEntriesErrStays | printer/Printer.java:325-347 | once the label loop of a race has thrown, the labels after it change nothing |
| Printing.CorrectErrStays | printer/Printer.java:320-354 | once correctBallot has thrown on some race, the races after it change nothing |
| Printing.LabelEntriesMarks | printer/Printer.java:325-347 | on well-formed choices the label loop succeeds with at most one entry per label; each entry is a label of the race carrying the status its first marking choice gives, and every marked label has an entry |
| Printing.RaceSelects | printer/Printer.java:349-353 | a race corrected without exception has a label and at least one selected entry (the "No Selection" entry when none was chosen); a race with no labels throws |
| Printing.SelectedExact | printer/Printer.java:90-96 | a label is printed exactly when some corrected entry has it with status 1, and there are no more printed labels than entries |
| Printing.SelectedAppend | printer/Printer.java:90-96 | the printed labels of two concatenated entry lists are the two lists' printed labels concatenated |
| Printing.SelectedNonEmpty | printer/Printer.java:90-96 | entries with a selected one print at least one label |
| Printing.EveryRacePrints | printer/Printer.java:87-96 | a ballot corrected without exception prints at least one choice per race |
| Printing.ScanChoices | printer/Printer.java:328-346 | the choice loop's outcome is the scan specification's: the first choice with the label and value "1" or "0" ends it; before that, a choice that is not a list, an empty list, or a one-element list holding the label throws, and any other choice (a longer one, or a one-element list with another label) is read or skipped |
| Printing.ScanThrows | printer/Printer.java:328-346 | the choice loop throws exactly when it reaches a non-list, an empty list or a lone label before any choice that ends it |
| Printing.CorrectRace | printer/Printer.java:322-353 | the label loop with its existingSelectedOption flag yields the race's entries, with (race[0], 1) appended when none is selected |
| Printing.CorrectBallot | printer/Printer.java:317-362 | correctBallot yields the races' entries in race order, or the first exception |
| Printing.PrintedChoices | printer/Printer.java:85-96 | the loop collects exactly the labels of the selected entries, in order |
| Printing.InsertCounts | printer/Printer.java:306-307 | inserting an id into a list adds exactly that id to its multiset |
| Printing.InsertSorted | printer/Printer.java:306-307 | insertion brings in no other value and keeps an ascending list ascending |
| Printing.SortSorts | printer/Printer.java:306-307 | the sort of the race ids is ascending and a permutation of its input |
| Printing.RaceNameImagePairs | printer/Printer.java:294-315 | over the image map's keys, each listed once, getRaceNameImagePairs succeeds exactly when every key containing "L" has a valid int after its first character |
| Printing.RaceIdsErrStays | printer/Printer.java:298-304 | once the id loop has thrown on a key, the keys after it change nothing |
| Printing.GetRaceNameImagePairs | printer/Printer.java:294-315 | the id loop, the sort and the pair loop yield the specified pairs or the same exception |
| Printing.TitlePairs | printer/Printer.java:309-313 | the pair loop yields one pair per sorted id, "L" and the id with the image stored under that key (null when absent) |
| Printing.RaceIdsOfKeys | printer/Printer.java:298-304 | every collected id is the number after the first character of some key containing "L", and there are no more ids than keys |
| Printing.RaceNamePairsSorted | printer/Printer.java:294-315 | the pairs follow the ids in ascending order, a permutation of the collected ids, each pair holding its id's key and the image under it |
| Printing.CanonicalTitleKey | printer/Printer.java:311 | the key "L" followed by an id's decimal text contains "L" and parses back to that id |
| Printing.NumPagesCeil | printer/Printer.java:122-124 | for a positive page height and a non-negative total, the page count is the least number of pages that cover the total |
| Printing.PrintPage | printer/Printer.java:122-127 | the page-count test at the head of print() divides by zero exactly on a zero page height, and otherwise answers NO_SUCH_PAGE exactly when the page index is at or past the page count, computed in Java int arithmetic |
| Printing.NumPagesOverflow | printer/Printer.java:122-127 | Integer.MIN_VALUE / -1 overflows to Integer.MIN_VALUE with no remainder, so with that total and a height of -1 every page index answers NO_SUCH_PAGE |
| Printing.TotalSizeErrStays | printer/Printer.java:105-111 | once the height loop has dereferenced a missing image, the choices after it change nothing |
| Printing.TotalSizeSum | printer/Printer.java:105-111 | the total size fails exactly when some printed choice has no image; with non-negative heights whose sum fits an int it is that sum |
| Printing.SumHeights | printer/Printer.java:105-111 | the height loop's outcome is the total-size specification's, in Java int arithmetic |
| Printing.Inset | printer/Printer.java:424-425 | for a printable size within the paper size, the inset is half the margin rounded down |
| Printing.ColumnWidth | printer/Printer.java:192 | the two-column print width is half the printable width rounded down |
| Printing.DefaultInsets | votebox/AuditoriumParams.java:91-96 | the default VVPAT paper and printable sizes give insets of 5 points on both axes |
| PrintImages.ClearRunSpec | printer/PrintImageUtils.java:91-109 | the column scan started at column x stops before the width, every column it passes is clear, and the column after where it stops is not |
| PrintImages.LastClearSpec | printer/PrintImageUtils.java:157-176 | lastClearRow is below the width, columns 1 to lastClearRow are all clear pixels (alpha 0 or white), and the next column, if any, is not |
| PrintImages.LastClearUnique | printer/PrintImageUtils.java:157-176 | any value with those properties is the scan's result, so they define it |
| PrintImages.ScanColumns | printer/PrintImageUtils.java:157-176 | the labelled double loop over columns and rows yields that scan result |
| PrintImages.Subimage | printer/PrintImageUtils.java:113 | getSubimage from column t keeps every row and the height, and the width falls by t |
| PrintImages.Reverse | printer/PrintImageUtils.java:63-76 | one row mirrored: the same length, pixel i taken from the other end |
| PrintImages.Flip | printer/PrintImageUtils.java:63-76 | flipImage keeps the width and the height |
| PrintImages.FlipFlip | printer/PrintImageUtils.java:63-76 | flipping twice gives the image back, and column x of the flipped image is column width-1-x of the original |
| PrintImages.TrimMeasure | printer/PrintImageUtils.java:151-181 | getImageTrimHelper answers a column below the width when the pixels are grabbed, and -1 otherwise |
| PrintImages.TrimRemoves | printer/PrintImageUtils.java:85-115 | with maxToTrim >= 0 the trim succeeds, keeps the height, lowers the width by min(scan, maxToTrim), and removes from each row exactly that many leading pixels; every removed column except column 0, which the scan never reads, is clear |
| PrintImages.TrimSpec | printer/PrintImageUtils.java:85-115 | trimImageHelper fails exactly when the grab succeeds and maxToTrim is negative; otherwise it gives an image of the same height, at least one pixel wide and no wider than the original |
| PrintImages.TrimImageHelper | printer/PrintImageUtils.java:85-115 | trimImageHelper returns the image unchanged when the grab fails, throws on a negative maxToTrim, and otherwise gives the subimage from min(lastClearRow, maxToTrim) |
| PrintImages.GetImageTrimHelper | printer/PrintImageUtils.java:151-181 | getImageTrimHelper's loops yield the measure specification |
| PrintImages.ReverseDrop | printer/PrintImageUtils.java:41-48 | mirroring a row, dropping t leading pixels and mirroring back drops the row's last t pixels |
| PrintImages.TrimFromEnd | printer/PrintImageUtils.java:37-55 | trimImage from the end with maxToTrim >= 0 succeeds and removes from each row exactly its last min(getImageTrim(image, true), maxToTrim) pixels |
| PrintImages.FlipImage | printer/PrintImageUtils.java:63-76 | the flip method gives the mirror image |
| PrintImages.TrimImage | printer/PrintImageUtils.java:37-55 | trimImage trims the front directly, or the mirrored image mirrored back when trimming from the end |
| PrintImages.GetImageTrim | printer/PrintImageUtils.java:124-143 | getImageTrim measures the image, or its mirror image when flipped |
| PrintImages.ScaledPasses | printer/PrintImageUtils.java:207-255 | the do/while loop succeeds exactly when both targets are at least 1, and its passes go straight to the target in one step, or with higherQuality halve each dimension (never below its target) until the first pass that reaches both |
| PrintImages.HalveBetween | printer/PrintImageUtils.java:231-243 | a halving pass on a dimension at or above its target stays between the target and the size it started from |
| PrintImages.PassesBetween | printer/PrintImageUtils.java:230-252 | every multi-step pass lies between the target and the original size on both dimensions, and no pass grows |
| HtmlPrinting.HtmlWriter.constructor | printer/HTMLPrinter.java:42-45 | a new writer has nothing written |
| HtmlPrinting.HtmlWriter.Write | printer/HTMLPrinter.java:57 | a write appends exactly its piece to what was written |
| HtmlPrinting.WriteColumn | printer/HTMLPrinter.java:119-132 | the column loop writes one image tag per name in order, with a pair of line breaks after every selection image (every second image) |
| HtmlPrinting.WriteFrameOpen | printer/HTMLPrinter.java:108-116 | the opening writes are the container, the two margins and the column div, in that order |
| HtmlPrinting.WritePair | printer/HTMLPrinter.java:167-171 | two writes in a row append both pieces in order |
| HtmlPrinting.WriteTwoColumnPage | printer/HTMLPrinter.java:105-176 | one page writes list 0 at width 250 in the left column and list 1, when there is one, at width 303 in the right column, whose div is opened and closed either way |
| HtmlPrinting.GeneratorHelperForTwoColumns | printer/HTMLPrinter.java:103-183 | the two-column helper writes one page for lists 0 and 1, then recurs on the lists from 2 |
| HtmlPrinting.GeneratorHelperForOneColumn | printer/HTMLPrinter.java:191-239 | the one-column helper writes list 0 at width 606 in a single column, then hands the remaining lists to the two-column helper |
| HtmlPrinting.GenerateHTMLFile | printer/HTMLPrinter.java:23-95 | the writer's text grows by exactly the document's text: the prologue, the chosen helper's output and the epilogue; with no lists it writes the prologue and the helper's opening frame (container, both margins, the first column div) and then throws, so it fails exactly when there is no list |
| HtmlPrinting.ColumnImages | printer/HTMLPrinter.java:121-132 | a column holds one image tag per name, in order, and one break pair per selection image, the number of names halved |
| HtmlPrinting.StepImages | printer/HTMLPrinter.java:124-131 | one loop step writes its image tag, and a break pair exactly after an odd position |
| HtmlPrinting.TwoFrameImages | printer/HTMLPrinter.java:108-171 | a two-column frame holds the left column's images followed by the right column's |
| HtmlPrinting.FrameMarkup | printer/HTMLPrinter.java:108-171 | the frame markup itself holds no image tag |
| HtmlPrinting.OneFrameImages | printer/HTMLPrinter.java:196-227 | a one-column frame holds exactly its column's images |
| HtmlPrinting.PageImages | printer/HTMLPrinter.java:119-164 | a two-column page holds list 0's images at the left width, then list 1's at the right width when it exists |
| HtmlPrinting.TwoImgsFront | printer/HTMLPrinter.java:178-182 | in two-column layout the first two lists go left and right and the layout starts over from list 2 |
| HtmlPrinting.TwoColumnsImages | printer/HTMLPrinter.java:103-183 | the two-column helper draws every name of every list exactly once, in list order, list i on the left when i is even and on the right when i is odd |
| HtmlPrinting.DocumentImages | printer/HTMLPrinter.java:71-78 | the document's images are the two-column layout of all lists, or in one-column mode list 0 at the single width followed by the two-column layout of the rest |
| HtmlPrinting.WrapImages | printer/HTMLPrinter.java:57-84 | the prologue and the epilogue hold no image tag |
| HtmlPrinting.OneColumnImages | printer/HTMLPrinter.java:191-239 | the one-column helper draws list 0 at the single width, then the two-column layout of lists 1 onwards |
| HtmlPrinting.EmptyRightColumn | printer/HTMLPrinter.java:140-167 | with an odd number of lists the last page ends with an empty right column: its div is opened and closed, then the container |
| HtmlPrinting.DocumentFrame | printer/HTMLPrinter.java:57-84 | the document opens with the prologue, and ends with the epilogue exactly when there is at least one list; without one it stops inside an opened container, before any image |
| HtmlPrinting.ConcatAppend | printer/HTMLPrinter.java:57-84 | writing two runs of pieces one after the other writes their two texts one after the other |
| TallyResults.IsRaceImage | supervisor/view/TallyResultsFrame.java:452-466 | an entry is a race image exactly when it starts with "media/vvpat/B", ends with ".png", contains "_selected_" and, when a language list is given, contains its first language; an empty language list throws exactly when the first three hold |
| TallyResults.GetRace | supervisor/view/TallyResultsFrame.java:474-479 | getRace succeeds exactly when the name has a 'B' and a '_' and the first 'B' comes no later than the first '_', and then yields the text from that 'B' up to the first '_' |
| TallyResults.RaceImageHasRace | supervisor/view/TallyResultsFrame.java:452-479 | every race image yields a race id that is non-empty and starts with 'B' |
| TallyResults.MinFromKeeps | supervisor/view/TallyResultsFrame.java:163-167 | as written, the loop of min never moves its running value off the first suffix |
| TallyResults.MinAsWrittenIsFirst | supervisor/view/TallyResultsFrame.java:160-172 | as written, min of ids whose suffixes all parse is the first id's suffix, whatever the others are |
| TallyResults.MinAsWrittenCounterexample | supervisor/view/TallyResultsFrame.java:160-172 | as written, min of ["B5", "B3"] is 5 although "B3" has suffix 3 |
| TallyResults.MinLoop | supervisor/view/TallyResultsFrame.java:160-172 | the loop of min as written yields the as-written specification: a suffix that does not parse gives 0, and an empty id throws |
| TallyResults.MinFromCorrectedIsMin | supervisor/view/TallyResultsFrame.java:163-167 | the intended loop from any index ends at a value no larger than the running minimum and every remaining suffix, equal to one of them |
| TallyResults.MinCorrectedIsMin | supervisor/view/TallyResultsFrame.java:160-172 | as intended, min of ids whose suffixes all parse is the smallest suffix, one that occurs |
| TallyResults.MinLoopCorrected | supervisor/view/TallyResultsFrame.java:160-172 | the intended loop yields the intended specification, with the source's failure cases |
| TallyResults.CompareCounts | supervisor/view/TallyResultsFrame.java:269-280 | the row comparator answers -1, 0 or 1 |
| TallyResults.CompareCountsOrder | supervisor/view/TallyResultsFrame.java:269-280 | the comparator is antisymmetric, zero exactly on equal counts and transitive; rows without a count come first and larger counts before smaller |
| TallyResults.GetWidestImage | supervisor/view/TallyResultsFrame.java:392-401 | never below -1; -1 for an empty map, otherwise the width of some image that no image exceeds |
| TallyResults.GetTallestImage | supervisor/view/TallyResultsFrame.java:407-416 | never below -1; -1 for an empty map, otherwise the height of some image that no image exceeds |
| TallyResults.RacesOfExact | supervisor/view/TallyResultsFrame.java:117-121 | a race id is listed under a title exactly when it maps to that title, and is listed once |
| TallyResults.RacesFor | supervisor/view/TallyResultsFrame.java:117-121 | the inner loop collects, in iteration order, the race ids whose title is the given one |
| TallyResults.GroupByTitle | supervisor/view/TallyResultsFrame.java:112-124 | the titles grouped are exactly the map's title values, each mapped to its race ids in iteration order |
| TallyResults.GroupingExact | supervisor/view/TallyResultsFrame.java:112-124 | each race id is grouped under exactly the title it maps to and under no other |

## Left out

- File and device I/O. The configuration file arrives as its sequence of lines, or None when reading fails. The HTML file is a writer object that records what is written to it. Printer lookup, print jobs and the VVPAT driver are not modelled.
- SHA-1 (FIPS 180-4) inside the membership proof. It is a hash function parameter applied to the sequence of transcript elements, not to their concatenated decimal text.
- Randomness. The random values of the membership proof and of the encrypter, and the clock reading of the scanner states, are parameters.
- Concrete modular arithmetic. Group elements are discrete logarithms mod q. AdderInteger, PublicKey and ElgamalCiphertext reach the model only through their fields and through codec parameters for their s-expression forms.
- AdderInteger text. Where the source prints an AdderInteger or reads one back with new AdderInteger(text, p), the model takes the text to be the plain decimal form of the number (IntToString and ParseBigInteger), with no reduction by p on reading.
- Decimal digits. ParseBigInteger and ParseInt accept only the ASCII digits '0' to '9'. Java's new BigInteger(String) and Integer.parseInt also accept the other Unicode decimal digits, through Character.digit. So the model treats as malformed some text that Java reads: configuration values, printer race ids, the suffixes min compares, and the numbers in a membership proof's text form.
- Unseen collaborators, all passed as parameters:
  - key derivation and generateFinalPublicKey;
  - VoteProof computation and verification;
  - makeId;
  - the reading of a verbatim ballot (makeVerbatim and toVerbatim).
- Election.castVote is modelled only as appending the vote to its election.
- Write-ins. encryptWriteIns uses AES and is left out; the write-in key ciphertext is a parameter. The commented-out write-in code is not modelled.
- BallotEncrypter.encrypt, adderDecrypt, adderDecryptWithKey and main are not modelled. encrypt and the arithmetic inside decrypt delegate to the ElGamalCrypto class, which is not part of this model; main is a test harness.
- Vote.shortHash (SHA-1, and unused) is not modelled.
- ASExpression.toString is not part of this model. Where the source prints a list expression, the model uses a stand-in rendering: an atom is its text, and a list is its items' renderings between parentheses, separated by single spaces.
- StringExpression.getBytesCopy keeps the low 8 bits of each character: one byte per character.
- HashMap iteration order is an order parameter: a sequence listing each key of the map once (Sequences.Enumerates). The source does depend on it: toTraditionalFormat emits its rows in that order, and min's s.get(0) takes the first race id in key-set order as the id of each title group. The model gives the result for every order, but does not fix Java's.
- Tallier.ChallengeDelayedTallier.Confirmed: confirming a nonce that is not pending dereferences null before the try block. The model returns the outcome Thrown("NullPointerException") instead of requiring the nonce to be pending.
- Tallying: percentages are floating point and are left out. The ballot-archive (ZIP) loading of the results window is not modelled; the race images arrive as a map.
- Rendering and images:
  - all Swing and AWT drawing and all double-valued scale factors are left out;
  - images in the printer are known only by their heights;
  - images in the scaling loop are known only by their sizes;
  - the barcode of getBarcode is not modelled.
- Out-of-scope source files: BallotScanner, the UI files, IncrementalAuditoriumLog and its test, BatteryStatus, and the web server. They are camera, network, process, database and user-interface code.
- BallotEncryption.BallotEncrypter.RecentRandomList: when the specification fails, the method is only stated to fail. Which exception message it reports is not stated.
- Printing.PrintPage: only the page-count test of print() is modelled. For an existing page, print() goes on to skip the earlier pages' choices, trim and scale the images and draw them. Those steps and the exceptions they throw are not modelled: fewer than two printed choices make choices.get(1) throw IndexOutOfBoundsException, and a choice without an image throws NullPointerException.
- Tallier.GroupOutcome: an atom in place of the vote-ids list is treated as malformed. The source asks the atom for its size() before any cast, and ASExpression.size() is not part of this model; an atom of size 0 would pass there with no ids.
- BallotEncryption.ToTraditionalFormat: when the specification fails, the method is only stated to fail. Which exception message it reports is not stated.
- PrintImages.ScaledPasses: requires that, with higherQuality, the image start no smaller than the target. Otherwise the source's loop either never terminates or throws: a dimension that halves to 0 makes new BufferedImage throw.

## Findings

| source | as written | input that shows it | evidently intended | confidence | as-written member | corrected member |
|---|---|---|---|---|---|---|
| votebox/events/CommitBallotEvent.java:45-63 | the matcher builds the event from list positions 0 to 3, and position 0 is the "commit-ballot" tag | the event with nonce "12345", any readable ballot, ballot id "B1" and precinct "P1": its decoded encoding has the tag as nonce and every other field shifted by one place | read positions 1 to 4, so decoding an encoded event gives it back | not executed | VoteEvents.CommitAsWrittenCounterexample | VoteEvents.CommitRoundTrip |
| supervisor/view/TallyResultsFrame.java:160-172 | when a smaller suffix is found, min re-reads s.get(0), so the result is always the first id's suffix | ["B5", "B3"] yields 5 | assign the smaller suffix, so the result is the smallest suffix | not executed | TallyResults.MinAsWrittenCounterexample | TallyResults.MinCorrectedIsMin |

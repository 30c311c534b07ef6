/** The bytes that open every connection, and what each side makes of them. */
module Handshake {
  import opened Collections
  import opened Utf8

  type Word = w: int | 0 <= w < 0x1_0000

  const PROTOCOL_MAGIC: seq<Byte> := [0x54, 0x45, 0x49, 0x52] // "TEIR"
  const PROTOCOL_VERSION: Word := 9
  const HELLO_ACCEPTED: Byte := 0x00
  const HELLO_REJECTED_VERSION: Byte := 0x01
  const MAX_COMMIT_LEN: nat := 256

  /** Little-endian. */
  function Le16(w: Word): seq<Byte> {
    [w % 256, w / 256]
  }

  function FromLe16(bytes: seq<Byte>): (w: Word)
    requires |bytes| == 2
    ensures Le16(w) == bytes
  {
    var high: int := bytes[1];
    bytes[0] + 256 * high
  }

  datatype Hello = Hello(magic: seq<Byte>, version: Word)

  function HelloBytes(hello: Hello): seq<Byte> {
    hello.magic + Le16(hello.version)
  }

  function HelloFrom(bytes: seq<Byte>): (hello: Hello)
    requires |bytes| == 6
    ensures HelloBytes(hello) == bytes
  {
    Hello(bytes[..4], FromLe16(bytes[4..]))
  }

  lemma HelloRoundTrip(hello: Hello)
    requires |hello.magic| == 4
    ensures |HelloBytes(hello)| == 6 && HelloFrom(HelloBytes(hello)) == hello
  {
    var bytes := HelloBytes(hello);
    assert bytes[..4] == hello.magic && bytes[4..] == Le16(hello.version);
  }

  /** A commit as it travels: its length, then its bytes, cut to fit. */
  function CommitBytes(commit: seq<Scalar>): seq<Byte> {
    var body := Encode(Cut(commit, MAX_COMMIT_LEN));
    Le16(|body|) + body
  }

  function Greeting(ours: Word, commit: seq<Scalar>): seq<Byte> {
    HelloBytes(Hello(PROTOCOL_MAGIC, ours)) + CommitBytes(commit)
  }

  function Acceptance(commit: seq<Scalar>): seq<Byte> {
    [HELLO_ACCEPTED] + CommitBytes(commit)
  }

  function Rejection(ours: Word): seq<Byte> {
    [HELLO_REJECTED_VERSION] + Le16(ours)
  }

  /** What this build writes first, and all it writes to another version. */
  lemma CurrentBytes(commit: seq<Scalar>)
    ensures Greeting(PROTOCOL_VERSION, commit)[..6] == [0x54, 0x45, 0x49, 0x52, 9, 0]
    ensures Rejection(PROTOCOL_VERSION) == [1, 9, 0]
  {
    var hello := Hello(PROTOCOL_MAGIC, PROTOCOL_VERSION);
    assert Greeting(PROTOCOL_VERSION, commit)[..6] == HelloBytes(hello);
  }

  datatype Error =
    | Io
    | BadMagic(magic: seq<Byte>)
    | VersionMismatch(ours: Word, theirs: Word)
    | Rejected(daemon: Option<Word>)
    | UnexpectedReply(reply: Byte)
    | CommitTooLong(length: Word)

  datatype Result<T> = Ok(value: T) | Err(error: Error)

  // ----- what each side makes of what it is sent

  /** A result, what is left unread, and what was written. */
  datatype Outcome = Outcome(result: Result<seq<Scalar>>, rest: seq<Byte>, sent: seq<Byte>)

  /** Nothing is left of a stream that ended too early. */
  function CommitFrom(bytes: seq<Byte>): (Result<seq<Scalar>>, seq<Byte>) {
    if |bytes| < 2 then (Err(Io), [])
    else
      var length := FromLe16(bytes[..2]);
      if length > MAX_COMMIT_LEN then (Err(CommitTooLong(length)), bytes[2..])
      else if |bytes| < 2 + length then (Err(Io), [])
      else (Ok(DecodeLossy(bytes[2..2 + length])), bytes[2 + length..])
  }

  function ServerOutcome(ours: Word, commit: seq<Scalar>, incoming: seq<Byte>): Outcome {
    if |incoming| < 6 then Outcome(Err(Io), [], [])
    else
      var hello := HelloFrom(incoming[..6]);
      if hello.magic != PROTOCOL_MAGIC then Outcome(Err(BadMagic(hello.magic)), incoming[6..], [])
      else if hello.version != ours then
        Outcome(Err(VersionMismatch(ours, hello.version)), incoming[6..], Rejection(ours))
      else
        var (theirs, rest) := CommitFrom(incoming[6..]);
        Outcome(theirs, rest, if theirs.Ok? then Acceptance(commit) else [])
  }

  function ClientOutcome(ours: Word, commit: seq<Scalar>, incoming: seq<Byte>): Outcome {
    var sent := Greeting(ours, commit);
    if |incoming| < 1 then Outcome(Err(Io), [], sent)
    else if incoming[0] == HELLO_ACCEPTED then
      var (theirs, rest) := CommitFrom(incoming[1..]);
      Outcome(theirs, rest, sent)
    else if incoming[0] == HELLO_REJECTED_VERSION then
      if |incoming| < 3 then Outcome(Err(Rejected(None)), [], sent)
      else Outcome(Err(Rejected(Some(FromLe16(incoming[1..3])))), incoming[3..], sent)
    else Outcome(Err(UnexpectedReply(incoming[0])), incoming[1..], sent)
  }

  // ----- the code

  /** `encode_commit`: the cut is found on the bytes, stepping back to a
      character boundary. */
  method EncodeCommit(commit: seq<Scalar>) returns (buf: seq<Byte>)
    ensures buf == CommitBytes(commit)
  {
    var bytes := Encode(commit);
    var end: nat := Min(|bytes|, MAX_COMMIT_LEN);
    while !IsCharBoundary(bytes, end)
      invariant end <= Min(|bytes|, MAX_COMMIT_LEN)
      invariant forall e: nat | end < e <= Min(|bytes|, MAX_COMMIT_LEN) :: !IsCharBoundary(bytes, e)
      decreases end
    {
      end := end - 1;
    }
    BoundaryIsTheCut(commit, end);
    buf := Le16(end) + bytes[..end];
  }

  /** The last boundary within the limit ends the longest prefix within it. */
  lemma BoundaryIsTheCut(commit: seq<Scalar>, end: nat)
    requires end <= Min(|Encode(commit)|, MAX_COMMIT_LEN) && IsCharBoundary(Encode(commit), end)
    requires forall e: nat | end < e <= Min(|Encode(commit)|, MAX_COMMIT_LEN) :: !IsCharBoundary(Encode(commit), e)
    ensures Encode(commit)[..end] == Encode(Cut(commit, 256))
  {
    var k := BoundaryEndsAPrefix(commit, end);
    PrefixEncodes(commit, k);
    CutIsLongest(commit, MAX_COMMIT_LEN);
    var cut := |Cut(commit, MAX_COMMIT_LEN)|;
    if cut > k {
      assert commit[..cut][..k] == commit[..k];
      PrefixEncodes(commit[..cut], k);
      PrefixEncodes(commit, cut);
      PrefixEndsOnABoundary(commit, cut);
      assert false;
    }
    assert cut == k;
  }

  /** One end of a connection: what the peer sends before it closes, and what
      was written to it. */
  class Stream {
    var incoming: seq<Byte>
    var outgoing: seq<Byte>

    constructor (incoming: seq<Byte>)
      ensures this.incoming == incoming && outgoing == []
    {
      this.incoming := incoming;
      outgoing := [];
    }

    method ReadExact(n: nat) returns (bytes: Result<seq<Byte>>)
      modifies this
      ensures outgoing == old(outgoing)
      ensures |old(incoming)| >= n ==>
        bytes.Ok? && bytes.value == old(incoming)[..n] && incoming == old(incoming)[n..]
      ensures |old(incoming)| < n ==> bytes == Err(Io) && incoming == []
    {
      if |incoming| < n {
        incoming := [];
        return Err(Io);
      }
      bytes := Ok(incoming[..n]);
      incoming := incoming[n..];
    }

    method WriteAll(bytes: seq<Byte>)
      modifies this
      ensures incoming == old(incoming) && outgoing == old(outgoing) + bytes
    {
      outgoing := outgoing + bytes;
    }

    method ReadCommit() returns (commit: Result<seq<Scalar>>)
      modifies this
      ensures outgoing == old(outgoing)
      ensures (commit, incoming) == CommitFrom(old(incoming))
    {
      ghost var before := incoming;
      var length := ReadExact(2);
      if length.Err? {
        return Err(length.error);
      }
      var n := FromLe16(length.value);
      if n > MAX_COMMIT_LEN {
        return Err(CommitTooLong(n));
      }
      var bytes := ReadExact(n);
      if bytes.Err? {
        return Err(bytes.error);
      }
      assert before[2..][..n] == before[2..2 + n];
      commit := Ok(DecodeLossy(bytes.value));
    }

    /** A failed read is an unknown version, not an error. */
    method ReadDaemonVersion() returns (version: Option<Word>)
      modifies this
      ensures outgoing == old(outgoing)
      ensures version.Some? <==> |old(incoming)| >= 2
      ensures version.Some? ==> old(incoming) == Le16(version.value) + incoming
      ensures version.None? ==> incoming == []
    {
      var bytes := ReadExact(2);
      version := if bytes.Ok? then Some(FromLe16(bytes.value)) else None;
    }

    method ClientHandshake(ours: Word, commit: seq<Scalar>) returns (theirs: Result<seq<Scalar>>)
      modifies this
      ensures var outcome := ClientOutcome(ours, commit, old(incoming));
        theirs == outcome.result && incoming == outcome.rest && outgoing == old(outgoing) + outcome.sent
    {
      var mine := EncodeCommit(commit);
      WriteAll(HelloBytes(Hello(PROTOCOL_MAGIC, ours)) + mine);
      var reply := ReadExact(1);
      if reply.Err? {
        return Err(reply.error);
      }
      if reply.value[0] == HELLO_ACCEPTED {
        theirs := ReadCommit();
      } else if reply.value[0] == HELLO_REJECTED_VERSION {
        ghost var after := incoming;
        var version := ReadDaemonVersion();
        if version.Some? {
          assert after[..2] == Le16(version.value);
        }
        theirs := Err(Rejected(version));
      } else {
        theirs := Err(UnexpectedReply(reply.value[0]));
      }
    }

    method ServerHandshake(ours: Word, commit: seq<Scalar>) returns (theirs: Result<seq<Scalar>>)
      modifies this
      ensures var outcome := ServerOutcome(ours, commit, old(incoming));
        theirs == outcome.result && incoming == outcome.rest && outgoing == old(outgoing) + outcome.sent
    {
      var buf := ReadExact(6);
      if buf.Err? {
        return Err(buf.error);
      }
      var hello := HelloFrom(buf.value);
      if hello.magic != PROTOCOL_MAGIC {
        return Err(BadMagic(hello.magic));
      }
      if hello.version != ours {
        WriteAll([HELLO_REJECTED_VERSION] + Le16(ours));
        return Err(VersionMismatch(ours, hello.version));
      }
      theirs := ReadCommit();
      if theirs.Err? {
        return;
      }
      var mine := EncodeCommit(commit);
      WriteAll([HELLO_ACCEPTED] + mine);
    }
  }

  // ----- the two sides together

  /** A commit read back is the one sent, cut; what follows it is untouched. */
  lemma CommitRoundTrip(commit: seq<Scalar>, rest: seq<Byte>)
    ensures CommitFrom(CommitBytes(commit) + rest) == (Ok(Cut(commit, 256)), rest)
  {
    var body := Encode(Cut(commit, MAX_COMMIT_LEN));
    var bytes := CommitBytes(commit) + rest;
    assert bytes[..2] == Le16(|body|);
    assert bytes[2..2 + |body|] == body && bytes[2 + |body|..] == rest;
    TextSurvives(Cut(commit, MAX_COMMIT_LEN));
  }

  lemma GreetingOpens(theirs: Word, after: seq<Byte>)
    ensures var incoming := HelloBytes(Hello(PROTOCOL_MAGIC, theirs)) + after;
      |incoming| >= 6 && incoming[6..] == after && HelloFrom(incoming[..6]) == Hello(PROTOCOL_MAGIC, theirs)
  {
    var hello := Hello(PROTOCOL_MAGIC, theirs);
    HelloRoundTrip(hello);
    assert (HelloBytes(hello) + after)[..6] == HelloBytes(hello);
  }

  /** Past a hello of its own version a daemon reads a commit. */
  lemma PastTheHello(version: Word, commit: seq<Scalar>, after: seq<Byte>)
    ensures ServerOutcome(version, commit, HelloBytes(Hello(PROTOCOL_MAGIC, version)) + after)
         == Outcome(CommitFrom(after).0, CommitFrom(after).1,
                    if CommitFrom(after).0.Ok? then Acceptance(commit) else [])
  {
    GreetingOpens(version, after);
  }

  lemma DaemonMeets(version: Word, ofClient: seq<Scalar>, ofDaemon: seq<Scalar>, after: seq<Byte>)
    ensures ServerOutcome(version, ofDaemon, Greeting(version, ofClient) + after)
         == Outcome(Ok(Cut(ofClient, 256)), after, Acceptance(ofDaemon))
  {
    var (hello, sent) := (HelloBytes(Hello(PROTOCOL_MAGIC, version)), CommitBytes(ofClient));
    Joined(hello, sent, after);
    PastTheHello(version, ofDaemon, sent + after);
    CommitRoundTrip(ofClient, after);
  }

  lemma Joined(a: seq<Byte>, b: seq<Byte>, c: seq<Byte>)
    ensures a + b + c == a + (b + c)
  {
  }

  lemma ClientMeets(version: Word, ofClient: seq<Scalar>, ofDaemon: seq<Scalar>, after: seq<Byte>)
    ensures ClientOutcome(version, ofClient, Acceptance(ofDaemon) + after)
         == Outcome(Ok(Cut(ofDaemon, 256)), after, Greeting(version, ofClient))
  {
    assert (Acceptance(ofDaemon) + after)[1..] == CommitBytes(ofDaemon) + after;
    CommitRoundTrip(ofDaemon, after);
  }

  /** Builds of one version: each side gets the other's commit, cut to the
      longest prefix that fits, and reads exactly what the other wrote, so that
      the frames behind it are still there. */
  lemma MatchingVersionsMeet(
      version: Word, ofClient: seq<Scalar>, ofDaemon: seq<Scalar>, afterHello: seq<Byte>, afterReply: seq<Byte>)
    ensures var sent := ClientOutcome(version, ofClient, []).sent;
      var daemon := ServerOutcome(version, ofDaemon, sent + afterHello);
      var client := ClientOutcome(version, ofClient, daemon.sent + afterReply);
      && daemon.result == Ok(Cut(ofClient, 256)) && daemon.rest == afterHello
      && client.result == Ok(Cut(ofDaemon, 256)) && client.rest == afterReply
      && client.sent == sent
  {
    DaemonMeets(version, ofClient, ofDaemon, afterHello);
    ClientMeets(version, ofClient, ofDaemon, afterReply);
  }

  /** Builds of two versions: the daemon refuses on the first six bytes,
      whatever follows them, if anything does, and the client learns which
      version refused it. */
  lemma OtherVersionsPart(
      ours: Word, theirs: Word, ofClient: seq<Scalar>, ofDaemon: seq<Scalar>, after: seq<Byte>, afterReply: seq<Byte>)
    requires ours != theirs
    ensures var daemon := ServerOutcome(ours, ofDaemon, HelloBytes(Hello(PROTOCOL_MAGIC, theirs)) + after);
      && daemon.result == Err(VersionMismatch(ours, theirs)) && daemon.rest == after
      && var client := ClientOutcome(theirs, ofClient, daemon.sent + afterReply);
      && client.result == Err(Rejected(Some(ours))) && client.rest == afterReply
  {
    GreetingOpens(theirs, after);
    var reply := Rejection(ours) + afterReply;
    assert reply[1..3] == Le16(ours) && reply[3..] == afterReply;
  }

  /** A daemon that closes after the bare reject byte, or inside its version, is
      still understood to have rejected. */
  lemma BareRejectIsUnderstood(ours: Word, commit: seq<Scalar>, incoming: seq<Byte>)
    ensures (exists daemon :: ClientOutcome(ours, commit, incoming).result == Err(Rejected(daemon)))
      <==> |incoming| >= 1 && incoming[0] == HELLO_REJECTED_VERSION
    ensures ClientOutcome(ours, commit, incoming).result == Err(Rejected(None))
      <==> 1 <= |incoming| <= 2 && incoming[0] == HELLO_REJECTED_VERSION
  {
    var result := ClientOutcome(ours, commit, incoming).result;
    if |incoming| >= 1 && incoming[0] == HELLO_REJECTED_VERSION {
      assert result == Err(Rejected(result.error.daemon));
    }
  }

  /** Exactly what a daemon accepts: its own version's hello and a whole commit
      of at most the longest length, text or not. It says accept to nothing
      else, and to another version it says nothing but its own. */
  lemma AcceptsExactly(ours: Word, commit: seq<Scalar>, incoming: seq<Byte>)
    ensures var outcome := ServerOutcome(ours, commit, incoming);
      && (outcome.result.Ok? <==> exists body: seq<Byte> :: IsWhole(ours, incoming, body))
      && (outcome.result.Ok? <==> outcome.sent == Acceptance(commit))
      && (outcome.sent == Rejection(ours) <==> outcome.result.Err? && outcome.result.error.VersionMismatch?)
      && (outcome.sent == [] || outcome.sent == Acceptance(commit) || outcome.sent == Rejection(ours))
  {
    assert Acceptance(commit)[0] != Rejection(ours)[0];
    if ServerOutcome(ours, commit, incoming).result.Ok? {
      var body := AcceptedIsWhole(ours, commit, incoming);
    }
    if body: seq<Byte> :| IsWhole(ours, incoming, body) {
      WholeIsAccepted(ours, commit, incoming, body);
    }
  }

  lemma AcceptedIsWhole(ours: Word, commit: seq<Scalar>, incoming: seq<Byte>) returns (body: seq<Byte>)
    requires ServerOutcome(ours, commit, incoming).result.Ok?
    ensures IsWhole(ours, incoming, body)
  {
    var after := incoming[6..];
    var n := FromLe16(after[..2]);
    body := after[2..2 + n];
    assert incoming[..6] == HelloBytes(Hello(PROTOCOL_MAGIC, ours)) && after[..2] == Le16(|body|);
    assert incoming == incoming[..6] + after[..2] + body + after[2 + n..];
  }

  ghost predicate IsWhole(ours: Word, incoming: seq<Byte>, body: seq<Byte>) {
    |body| <= 256 && HelloBytes(Hello(PROTOCOL_MAGIC, ours)) + Le16(|body|) + body <= incoming
  }

  lemma WholeIsAccepted(ours: Word, commit: seq<Scalar>, incoming: seq<Byte>, body: seq<Byte>)
    requires IsWhole(ours, incoming, body)
    ensures ServerOutcome(ours, commit, incoming).result == Ok(DecodeLossy(body))
  {
    var hello := HelloBytes(Hello(PROTOCOL_MAGIC, ours));
    var whole := hello + Le16(|body|) + body;
    var rest := incoming[|whole|..];
    assert incoming == hello + (Le16(|body|) + body + rest);
    GreetingOpens(ours, Le16(|body|) + body + rest);
    var after := Le16(|body|) + body + rest;
    assert after[..2] == Le16(|body|) && after[2..2 + |body|] == body;
  }

  // ----- which error

  function WordAt(bytes: seq<Byte>, k: nat): Word
    requires k + 1 < |bytes|
  {
    var (low: int, high: int) := (bytes[k], bytes[k + 1]);
    low + 256 * high
  }

  /** Why a daemon refuses, from the bytes alone: too few of them, a magic that is not
      "TEIR", another version, or a commit said to be longer than 256 bytes. */
  lemma RefusesExactly(ours: Word, commit: seq<Scalar>, incoming: seq<Byte>)
    requires ServerOutcome(ours, commit, incoming).result.Err?
    ensures ServerOutcome(ours, commit, incoming).result.error ==
      if |incoming| < 6 then Io
      else if incoming[..4] != [0x54, 0x45, 0x49, 0x52] then BadMagic(incoming[..4])
      else if WordAt(incoming, 4) != ours then VersionMismatch(ours, WordAt(incoming, 4))
      else if |incoming| < 8 || WordAt(incoming, 6) <= 256 then Io
      else CommitTooLong(WordAt(incoming, 6))
    ensures var outcome := ServerOutcome(ours, commit, incoming);
      outcome.rest ==
      match outcome.result.error
      case Io => []
      case CommitTooLong(_) => incoming[8..]
      case _ => incoming[6..]
  {
  }

  /** And why a client fails: likewise, or it was told its version is refused, or by a
      byte that means neither. */
  lemma FailsExactly(ours: Word, commit: seq<Scalar>, incoming: seq<Byte>)
    requires ClientOutcome(ours, commit, incoming).result.Err?
    ensures ClientOutcome(ours, commit, incoming).result.error ==
      if incoming == [] then Io
      else if incoming[0] == 1 then
        Rejected(if |incoming| < 3 then None else Some(WordAt(incoming, 1)))
      else if incoming[0] != 0 then UnexpectedReply(incoming[0])
      else if |incoming| < 3 || WordAt(incoming, 1) <= 256 then Io
      else CommitTooLong(WordAt(incoming, 1))
    ensures var outcome := ClientOutcome(ours, commit, incoming);
      outcome.rest ==
      match outcome.result.error
      case Io => []
      case UnexpectedReply(_) => incoming[1..]
      case Rejected(None) => []
      case _ => incoming[3..]
  {
  }
}

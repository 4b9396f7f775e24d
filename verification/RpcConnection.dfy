/** Framing of one HTTP request on a connection that delivers it in arbitrary pieces
    (rpc_connection.cpp), and the client's printer for such requests (supervisorctl.h). */
module RpcConnectionModel {
  import opened Text
  import opened Wrappers

  const MAX_REQUEST_SIZE: nat := 1024 * 1024
  const CRLF2 := "\r\n\r\n"
  const LF2 := "\n\n"
  const LENGTH_NAME := "content-length:"

  // ---- Numbers ----

  predicate IsDigit(c: char) {
    '0' <= c <= '9'
  }

  function DigitValue(s: string): nat
    requires forall i :: 0 <= i < |s| ==> IsDigit(s[i])
  {
    if s == "" then 0 else
    assert IsDigit(s[|s|-1]);
    DigitValue(s[..|s|-1]) * 10 + (s[|s|-1] as int - '0' as int)
  }

  function ToDecimal(n: nat): (s: string)
    ensures s != "" && forall i :: 0 <= i < |s| ==> IsDigit(s[i])
  {
    var last := [('0' as int + n % 10) as char];
    if n < 10 then last else ToDecimal(n / 10) + last
  }

  lemma {:induction false} DecimalRoundTrip(n: nat)
    ensures DigitValue(ToDecimal(n)) == n
  {
    var last := [('0' as int + n % 10) as char];
    if n < 10 {
      assert ToDecimal(n)[..0] == "";
    } else {
      DecimalRoundTrip(n / 10);
      assert ToDecimal(n)[..|ToDecimal(n)|-1] == ToDecimal(n / 10);
    }
  }

  /** The first position at or after `from` whose character is (or, without `isIn`, is not) one of
      `chars`; the length if there is none. */
  function FirstOf(s: string, chars: string, isIn: bool, from: nat): (k: nat)
    requires from <= |s|
    ensures from <= k <= |s|
    decreases |s| - from
  {
    if from == |s| || (s[from] in chars <==> isIn) then from else FirstOf(s, chars, isIn, from + 1)
  }

  lemma {:induction false} FirstOfIs(s: string, chars: string, isIn: bool, from: nat, k: nat)
    requires from <= k <= |s| && (k < |s| ==> (s[k] in chars <==> isIn))
    requires forall j :: from <= j < k ==> !(s[j] in chars <==> isIn)
    ensures FirstOf(s, chars, isIn, from) == k
    decreases k - from
  {
    if from < k {
      FirstOfIs(s, chars, isIn, from + 1, k);
    }
  }

  const SPACES := " \t\n\U{000B}\U{000C}\r"

  /** The leading digits of `s`. */
  function LeadingDigits(s: string): (d: string)
    ensures |d| <= |s| && forall i :: 0 <= i < |d| ==> IsDigit(d[i])
  {
    if s != "" && IsDigit(s[0]) then [s[0]] + LeadingDigits(s[1..]) else ""
  }

  /** std::stoull: leading white space, an optional sign, then as many digits as there are; throws
      (None) when there is no digit or the number does not fit. */
  function Stoull(s: string): Option<nat> {
    var t := s[FirstOf(s, SPACES, false, 0)..];
    var signed := t != "" && (t[0] == '+' || t[0] == '-');
    var digits := LeadingDigits(if signed then t[1..] else t);
    if digits == "" then None else
    var v := DigitValue(digits);
    if v >= 0x1_0000_0000_0000_0000 then None
    else if signed && t[0] == '-' then Some((0x1_0000_0000_0000_0000 - v) % 0x1_0000_0000_0000_0000)
    else Some(v)
  }

  // ---- Headers ----

  function ToLower(c: char): char {
    if 'A' <= c <= 'Z' then (c as int + 32) as char else c
  }

  function LowerAll(s: string): (r: string)
    ensures |r| == |s| && forall i :: 0 <= i < |s| ==> r[i] == ToLower(s[i])
  {
    seq(|s|, i requires 0 <= i < |s| => ToLower(s[i]))
  }

  /** The text of the declared length: from the first character behind the name that is no blank, to the
      end of the line; None when there is no such header or nothing behind the name. */
  function LengthText(headers: string): Option<string> {
    match Find(LowerAll(headers), LENGTH_NAME, 0)
    case None => None
    case Some(k) =>
      var start := FirstOf(headers, " \t", false, k + |LENGTH_NAME|);
      if start == |headers| then None else Some(headers[start..FirstOf(headers, "\r\n", true, start)])
  }

  /** The declared body length: zero when none is declared, None when the text makes stoull throw. */
  function ContentLength(headers: string): Option<nat> {
    match LengthText(headers)
    case None => Some(0)
    case Some(text) => Stoull(text)
  }

  datatype Split = Split(headerEnd: nat, bodyOffset: nat)

  /** The end of the headers: the first CRLFCRLF, or the first LFLF if there is none. */
  function FindSplit(data: string): (r: Option<Split>)
    ensures r.Some? ==> r.value.headerEnd <= r.value.bodyOffset <= |data|
  {
    match Find(data, CRLF2, 0)
    case Some(h) => Some(Split(h, h + 4))
    case None =>
      match Find(data, LF2, 0)
      case Some(h) => Some(Split(h, h + 2))
      case None => None
  }

  // ---- The effect of one read ----

  /** `Handed` holds the request passed on and the body that is extracted from it. */
  datatype Phase = Reading | Abandoned | TooLarge | Threw | Handed(request: string, body: Option<string>)

  datatype Connection = Connection(data: string, phase: Phase)

  datatype ReadError = NoError | Eof | OtherError

  /** process_request_ looks for the end of the headers again. */
  function BodyOf(request: string): Option<string> {
    match FindSplit(request)
    case None => None
    case Some(split) => Some(request[split.bodyOffset..])
  }

  datatype Decision = Wait | Throw | Hand(length: nat)

  /** What to do with the bytes received so far. */
  function Decide(data: string): (d: Decision)
    ensures d.Hand? ==> d.length <= |data|
  {
    match FindSplit(data)
    case None => Wait
    case Some(split) =>
      match ContentLength(data[..split.headerEnd])
      case None => Throw
      case Some(n) => if |data| - split.bodyOffset < n then Wait else Hand(split.bodyOffset + n)
  }

  function ReadStep(c: Connection, error: ReadError, chunk: string): Connection {
    if error.OtherError? then Connection(c.data, Abandoned)
    else if |c.data| + |chunk| > MAX_REQUEST_SIZE then Connection(c.data, TooLarge)
    else
      AfterDecision(c.data + chunk, error.Eof?)
  }

  function AfterDecision(data: string, gotEof: bool): Connection {
    match Decide(data)
    case Wait => Connection(data, if gotEof then Abandoned else Reading)
    case Throw => Connection(data, Threw)
    case Hand(n) => Connection(data[..n], Handed(data[..n], BodyOf(data[..n])))
  }

  class RpcConnection {
    var requestData: string
    var phase: Phase

    ghost function View(): Connection
      reads this
    {
      Connection(requestData, phase)
    }

    constructor ()
      ensures View() == Connection("", Reading)
    {
      requestData, phase := "", Reading;
    }

    method HandleRead(error: ReadError, chunk: string)
      requires phase.Reading?
      modifies this
      ensures View() == ReadStep(old(View()), error, chunk)
    {
      if error != NoError && error != Eof {
        phase := Abandoned;
        return;
      }
      if |requestData| + |chunk| > MAX_REQUEST_SIZE {
        phase := TooLarge;
        return;
      }
      requestData := requestData + chunk;
      Examine(error == Eof);
    }

    /** The part of the read handler that looks at what has been received so far. */
    method Examine(gotEof: bool)
      requires phase.Reading?
      modifies this
      ensures View() == AfterDecision(old(requestData), gotEof)
    {
      var split := FindHeaderEnd(requestData);
      if split == None {
        phase := if gotEof then Abandoned else Reading;
        return;
      }
      var bodyOffset := split.value.bodyOffset;
      var parsed := ParseContentLength(requestData[..split.value.headerEnd]);
      if parsed == None {
        phase := Threw;
        return;
      }
      if |requestData| - bodyOffset < parsed.value {
        phase := if gotEof then Abandoned else Reading;
        return;
      }
      requestData := requestData[..bodyOffset + parsed.value];
      var body := ProcessRequest(requestData);
      phase := Handed(requestData, body);
    }

    method FindHeaderEnd(data: string) returns (split: Option<Split>)
      ensures split == FindSplit(data)
    {
      var headerEnd := Find(data, CRLF2, 0);
      if headerEnd.Some? {
        return Some(Split(headerEnd.value, headerEnd.value + 4));
      }
      headerEnd := Find(data, LF2, 0);
      split := if headerEnd.Some? then Some(Split(headerEnd.value, headerEnd.value + 2)) else None;
    }

    method ProcessRequest(request: string) returns (body: Option<string>)
      ensures body == BodyOf(request)
    {
      var split := FindHeaderEnd(request);
      body := if split == None then None else Some(request[split.value.bodyOffset..]);
    }

    method ParseContentLength(headers: string) returns (length: Option<nat>)
      ensures length == ContentLength(headers)
    {
      var name := Find(LowerAll(headers), LENGTH_NAME, 0);
      if name == None {
        return Some(0);
      }
      var start := FirstOf(headers, " \t", false, name.value + |LENGTH_NAME|);
      if start == |headers| {
        return Some(0);
      }
      length := Stoull(headers[start..FirstOf(headers, "\r\n", true, start)]);
    }
  }

  // ---- Fragments ----

  function Concat(chunks: seq<string>): string {
    if chunks == [] then "" else Concat(chunks[..|chunks|-1]) + chunks[|chunks|-1]
  }

  /** Reads chunk after chunk; nothing is read any more once the connection is not reading. */
  function Feed(chunks: seq<string>): Connection {
    if chunks == [] then Connection("", Reading) else
    var c := Feed(chunks[..|chunks|-1]);
    if c.phase.Reading? then ReadStep(c, NoError, chunks[|chunks|-1]) else c
  }

  /** The first CRLFCRLF of `s` is at `h`, and a body of the declared length `n` follows in full. */
  predicate Complete(s: string, h: nat, n: nat) {
    && Find(s, CRLF2, 0) == Some(h)
    && ContentLength(s[..h]) == Some(n)
    && h + 4 + n <= |s| <= MAX_REQUEST_SIZE
  }

  /** No LFLF comes before the CRLFCRLF, or else the length declared before the first one reaches
      beyond it, so that the server is still waiting when the CRLFCRLF arrives. */
  predicate NoEarlySplit(s: string, h: nat)
    requires h <= |s|
  {
    match Find(s[..h], LF2, 0)
    case None => true
    case Some(k) =>
      match ContentLength(s[..k])
      case None => false
      case Some(m) => k + 2 + m >= h + 4
  }

  lemma SplitOfLongPrefix(s: string, h: nat, p: nat)
    requires Find(s, CRLF2, 0) == Some(h) && h + 4 <= p <= |s|
    ensures FindSplit(s[..p]) == Some(Split(h, h + 4))
  {
    FindInPrefix(s, p, CRLF2);
  }

  lemma LineFeedsAt(s: string, k: nat)
    requires OccursAt(s, LF2, k)
    ensures s[k] == '\n' && s[k + 1] == '\n'
  {
    assert s[k] == s[k..k + 2][0] && s[k + 1] == s[k..k + 2][1];
  }

  lemma CrLfsAt(s: string, k: nat)
    requires OccursAt(s, CRLF2, k)
    ensures s[k] == '\r' && s[k + 1] == '\n' && s[k + 2] == '\r' && s[k + 3] == '\n'
  {
    assert s[k] == s[k..k + 4][0] && s[k + 1] == s[k..k + 4][1];
    assert s[k + 2] == s[k..k + 4][2] && s[k + 3] == s[k..k + 4][3];
  }

  /** An LFLF that ends before the CRLFCRLF is complete ends before the CRLFCRLF begins. */
  lemma LineFeedsBeforeCrLfs(s: string, h: nat, k: nat)
    requires OccursAt(s, CRLF2, h) && OccursAt(s, LF2, k) && k + 2 < h + 4
    ensures k + 2 <= h
  {
    LineFeedsAt(s, k);
    CrLfsAt(s, h);
  }

  lemma SplitOfShortPrefix(s: string, h: nat, p: nat)
    requires Find(s, CRLF2, 0) == Some(h) && p < h + 4 && p <= |s|
    ensures FindSplit(s[..p]) ==
      match Find(s[..h], LF2, 0)
      case None => None
      case Some(k) => if k + 2 <= p then Some(Split(k, k + 2)) else None
  {
    FindInPrefix(s, p, CRLF2);
    FindInPrefix(s, p, LF2);
    FindInPrefix(s, h, LF2);
    FindFirst(s, CRLF2, 0);
    FindFirst(s, LF2, 0);
    match Find(s, LF2, 0)
    case None =>
    case Some(k) =>
      if k + 2 <= p {
        LineFeedsBeforeCrLfs(s, h, k);
      }
  }

  /** What the server decides on every prefix of the stream. */
  lemma DecideOnPrefix(s: string, h: nat, n: nat, p: nat)
    requires Complete(s, h, n) && NoEarlySplit(s, h) && p <= |s|
    ensures Decide(s[..p]) == if p < h + 4 + n then Wait else Hand(h + 4 + n)
  {
    if p < h + 4 {
      SplitOfShortPrefix(s, h, p);
      match Find(s[..h], LF2, 0)
      case None =>
      case Some(k) =>
        if k + 2 <= p {
          assert s[..p][..k] == s[..k];
        }
    } else {
      SplitOfLongPrefix(s, h, p);
      assert s[..p][..h] == s[..h];
    }
  }

  /** The outcome wanted: the request ends `n` bytes after the body offset `b`, and those `n` bytes are
      the body. */
  function Delivered(s: string, b: nat, n: nat): Connection
    requires b + n <= |s|
  {
    var request := s[..b + n];
    Connection(request, Handed(request, Some(request[b..])))
  }

  /** On every prefix of the stream the server waits until `b + n` bytes are there, and then decides for
      exactly those. */
  ghost predicate Settles(s: string, b: nat, n: nat) {
    && b + n <= |s| <= MAX_REQUEST_SIZE
    && (forall all :: all <= s ==> Decide(all) == if |all| < b + n then Wait else Hand(b + n))
    && BodyOf(s[..b + n]) == Some(s[..b + n][b..])
  }

  lemma PrefixOfPrefix(s: string, all: string, m: nat)
    requires all <= s && m <= |all|
    ensures all == s[..|all|] && all[..m] == s[..m]
  {
  }

  lemma BodyAfterSplit(request: string, split: Split)
    requires FindSplit(request) == Some(split)
    ensures split.bodyOffset <= |request| && BodyOf(request) == Some(request[split.bodyOffset..])
  {
  }

  /** The second search finds the same end of the headers as the first one. */
  lemma BodyOfRequest(s: string, h: nat, request: string)
    requires Find(s, CRLF2, 0) == Some(h) && request <= s && h + 4 <= |request|
    ensures BodyOf(request) == Some(request[h + 4..])
  {
    assert request == s[..|request|];
    FindInPrefix(s, |request|, CRLF2);
    BodyAfterSplit(request, Split(h, h + 4));
  }

  lemma CompleteSettles(s: string, h: nat, n: nat)
    requires Complete(s, h, n) && NoEarlySplit(s, h)
    ensures Settles(s, h + 4, n)
  {
    forall all | all <= s
      ensures Decide(all) == if |all| < h + 4 + n then Wait else Hand(h + 4 + n)
    {
      PrefixOfPrefix(s, all, 0);
      DecideOnPrefix(s, h, n, |all|);
    }
    BodyOfRequest(s, h, s[..h + 4 + n]);
  }

  lemma AfterHand(all: string, m: nat, request: string, body: string)
    requires Decide(all) == Hand(m) && request == all[..m] && BodyOf(request) == Some(body)
    ensures AfterDecision(all, false) == Connection(request, Handed(request, Some(body)))
  {
  }

  lemma DecisionOnPrefix(s: string, b: nat, n: nat, all: string)
    requires Settles(s, b, n) && all <= s
    ensures Decide(all) == if |all| < b + n then Wait else Hand(b + n)
  {
  }

  lemma DeliveredOnPrefix(s: string, b: nat, n: nat, all: string)
    requires Settles(s, b, n) && all <= s && |all| >= b + n
    ensures AfterDecision(all, false) == Delivered(s, b, n)
  {
    DecisionOnPrefix(s, b, n, all);
    PrefixOfPrefix(s, all, b + n);
    AfterHand(all, b + n, s[..b + n], s[..b + n][b..]);
  }

  lemma AfterWait(all: string)
    requires Decide(all) == Wait
    ensures AfterDecision(all, false) == Connection(all, Reading)
  {
  }

  lemma ReadDecides(data: string, chunk: string)
    requires |data + chunk| <= MAX_REQUEST_SIZE
    ensures ReadStep(Connection(data, Reading), NoError, chunk) == AfterDecision(data + chunk, false)
  {
  }

  lemma ReadOnPrefix(s: string, b: nat, n: nat, data: string, chunk: string)
    requires Settles(s, b, n) && data + chunk <= s
    ensures ReadStep(Connection(data, Reading), NoError, chunk) ==
      if |data + chunk| < b + n then Connection(data + chunk, Reading) else Delivered(s, b, n)
  {
    var all := data + chunk;
    ReadDecides(data, chunk);
    if |all| < b + n {
      DecisionOnPrefix(s, b, n, all);
      AfterWait(all);
    } else {
      DeliveredOnPrefix(s, b, n, all);
    }
  }

  lemma {:induction false} FeedSettles(s: string, b: nat, n: nat, chunks: seq<string>)
    requires Settles(s, b, n) && Concat(chunks) <= s
    ensures Feed(chunks) ==
      if |Concat(chunks)| < b + n then Connection(Concat(chunks), Reading) else Delivered(s, b, n)
  {
    if chunks != [] {
      var before := chunks[..|chunks|-1];
      assert Concat(before) <= Concat(chunks);
      FeedSettles(s, b, n, before);
      ReadOnPrefix(s, b, n, Concat(before), chunks[|chunks|-1]);
    }
  }

  /** However the stream is cut, the server goes on reading until the headers and the declared body
      are there, and on the first read that completes them hands over exactly that one request, from
      which exactly the body is extracted. */
  lemma {:induction false} AnyFragmentation(s: string, h: nat, n: nat, chunks: seq<string>)
    requires Complete(s, h, n) && NoEarlySplit(s, h) && Concat(chunks) <= s
    ensures Feed(chunks) ==
      if |Concat(chunks)| < h + 4 + n then Connection(Concat(chunks), Reading) else Delivered(s, h + 4, n)
  {
    CompleteSettles(s, h, n);
    FeedSettles(s, h + 4, n, chunks);
  }

  ghost predicate FragmentationIndependent(s: string) {
    forall chunks :: Concat(chunks) == s ==> Feed(chunks) == Feed([s])
  }

  lemma ConcatOne(a: string)
    ensures Concat([a]) == a
    ensures Feed([a]) == ReadStep(Connection("", Reading), NoError, a)
  {
    assert [a][..0] == [];
    assert "" + a == a;
  }

  lemma ConcatTwo(a: string, b: string)
    ensures Concat([a, b]) == a + b
    ensures !Feed([a]).phase.Reading? ==> Feed([a, b]) == Feed([a])
  {
    assert [a, b][..1] == [a];
    ConcatOne(a);
  }

  lemma WholeDecided(s: string, h: nat, n: nat)
    requires Complete(s, h, n)
    ensures Decide(s) == Hand(h + 4 + n)
  {
    assert s[..|s|] == s;
    SplitOfLongPrefix(s, h, |s|);
  }

  lemma WholeStream(s: string, h: nat, n: nat)
    requires Complete(s, h, n)
    ensures Feed([s]) == Delivered(s, h + 4, n)
  {
    var request := s[..h + 4 + n];
    ConcatOne(s);
    assert "" + s == s;
    WholeDecided(s, h, n);
    BodyOfRequest(s, h, request);
    AfterHand(s, h + 4 + n, request, request[h + 4..]);
  }

  /** A cut that makes the server answer before the CRLFCRLF has arrived. */
  lemma EarlySplit(s: string, h: nat, n: nat) returns (j: nat)
    requires Complete(s, h, n) && !NoEarlySplit(s, h)
    ensures j <= |s| && Feed([s[..j], s[j..]]) != Delivered(s, h + 4, n)
  {
    var k := Find(s[..h], LF2, 0).value;
    var m := ContentLength(s[..k]);
    j := k + 2 + if m.Some? then m.value else 0;
    SplitOfShortPrefix(s, h, j);
    assert s[..j][..k] == s[..k];
    assert "" + s[..j] == s[..j];
    ConcatOne(s[..j]);
    ConcatTwo(s[..j], s[j..]);
  }

  lemma NoEarlySplitSuffices(s: string, h: nat, n: nat)
    requires Complete(s, h, n) && NoEarlySplit(s, h)
    ensures FragmentationIndependent(s)
  {
    ConcatOne(s);
    forall chunks | Concat(chunks) == s
      ensures Feed(chunks) == Feed([s])
    {
      AnyFragmentation(s, h, n, chunks);
      AnyFragmentation(s, h, n, [s]);
    }
  }

  lemma CutMatters(s: string, left: string, right: string)
    requires s == left + right && Feed([left, right]) != Feed([s])
    ensures !FragmentationIndependent(s)
  {
    ConcatTwo(left, right);
  }

  lemma EarlySplitDiffers(s: string, h: nat, n: nat)
    requires Complete(s, h, n) && !NoEarlySplit(s, h)
    ensures !FragmentationIndependent(s)
  {
    WholeStream(s, h, n);
    var j := EarlySplit(s, h, n);
    CutMatters(s, s[..j], s[j..]);
  }

  /** Exactly when the outcome does not depend on how the stream is cut: a caller can tell from the
      first LFLF and the length declared before it. */
  lemma FragmentationIndependentIff(s: string, h: nat, n: nat)
    requires Complete(s, h, n)
    ensures FragmentationIndependent(s) <==> NoEarlySplit(s, h)
  {
    if NoEarlySplit(s, h) {
      NoEarlySplitSuffices(s, h, n);
    } else {
      EarlySplitDiffers(s, h, n);
    }
  }

  // ---- Headers that end at an LFLF ----

  /** The first LFLF of `s` is at `k`, and exactly a body of the length declared before it follows. */
  predicate CompleteLf(s: string, k: nat, m: nat) {
    && Find(s, LF2, 0) == Some(k)
    && ContentLength(s[..k]) == Some(m)
    && |s| == k + 2 + m <= MAX_REQUEST_SIZE
  }

  lemma DecideOnLfPrefix(s: string, k: nat, m: nat, all: string)
    requires CompleteLf(s, k, m) && all <= s && Find(all, CRLF2, 0) == None
    ensures Decide(all) == if |all| < k + 2 + m then Wait else Hand(k + 2 + m)
  {
    PrefixOfPrefix(s, all, 0);
    FindInPrefix(s, |all|, LF2);
    if k + 2 <= |all| {
      PrefixOfPrefix(s, all, k);
    }
  }

  lemma CompleteLfSettles(s: string, k: nat, m: nat)
    requires CompleteLf(s, k, m) && Find(s, CRLF2, 0) == None
    ensures Settles(s, k + 2, m)
  {
    forall all | all <= s
      ensures Decide(all) == if |all| < k + 2 + m then Wait else Hand(k + 2 + m)
    {
      PrefixOfPrefix(s, all, 0);
      FindInPrefix(s, |all|, CRLF2);
      DecideOnLfPrefix(s, k, m, all);
    }
    assert s[..k + 2 + m] == s;
    BodyAfterSplit(s, Split(k, k + 2));
  }

  lemma HandedBody(data: string)
    ensures var c := AfterDecision(data, false); c.phase.Handed? ==> c.phase.body == BodyOf(c.phase.request)
  {
  }

  /** With a CRLFCRLF anywhere the whole stream is split there, and so not at the LFLF. */
  lemma CrLfSpoilsLf(s: string, k: nat, m: nat, h: nat)
    requires CompleteLf(s, k, m) && Find(s, CRLF2, 0) == Some(h)
    ensures Feed([s]) != Delivered(s, k + 2, m)
  {
    ConcatOne(s);
    HandedBody(s);
    assert "" + s == s && s[..k + 2 + m] == s;
    BodyOfRequest(s, h, s);
    NotTheSamePlace(s, k, h);
    assert |s[h + 4..]| != |s[k + 2..]|;
  }

  lemma NotTheSamePlace(s: string, k: nat, h: nat)
    requires Find(s, LF2, 0) == Some(k) && Find(s, CRLF2, 0) == Some(h)
    ensures k != h + 2
  {
    FindFirst(s, CRLF2, 0);
    FindFirst(s, LF2, 0);
    CrLfsAt(s, h);
    LineFeedsAt(s, k);
  }

  /** A stream whose headers end at an LFLF is handed over under every fragmentation exactly when no
      CRLFCRLF occurs in it. */
  lemma LfFragmentationIff(s: string, k: nat, m: nat)
    requires CompleteLf(s, k, m)
    ensures (forall chunks :: Concat(chunks) == s ==> Feed(chunks) == Delivered(s, k + 2, m)) <==> Find(s, CRLF2, 0) == None
  {
    match Find(s, CRLF2, 0)
    case None =>
      CompleteLfSettles(s, k, m);
      forall chunks | Concat(chunks) == s
        ensures Feed(chunks) == Delivered(s, k + 2, m)
      {
        FeedSettles(s, k + 2, m, chunks);
      }
    case Some(h) =>
      CrLfSpoilsLf(s, k, m, h);
      ConcatOne(s);
  }

  lemma {:induction false} FirstOfExtends(a: string, b: string, chars: string, isIn: bool, from: nat)
    requires from <= |a|
    requires FirstOf(a, chars, isIn, from) < |a| || (b != "" && (b[0] in chars <==> isIn))
    ensures FirstOf(a + b, chars, isIn, from) == FirstOf(a, chars, isIn, from)
    decreases |a| - from
  {
    if from < |a| {
      assert (a + b)[from] == a[from];
      if !(a[from] in chars <==> isIn) {
        FirstOfExtends(a, b, chars, isIn, from + 1);
      }
    }
  }

  lemma NameExtends(a: string, b: string, j: nat)
    requires Find(LowerAll(a), LENGTH_NAME, 0) == Some(j)
    ensures Find(LowerAll(a + b), LENGTH_NAME, 0) == Some(j)
  {
    assert LowerAll(a + b)[..|a|] == LowerAll(a);
    FindInPrefix(LowerAll(a + b), |a|, LENGTH_NAME);
  }

  /** More lines after the headers do not change a length that was declared. */
  lemma LengthExtends(a: string, b: string)
    requires b != "" && b[0] == '\n' && LengthText(a).Some?
    ensures LengthText(a + b) == LengthText(a)
  {
    var j := Find(LowerAll(a), LENGTH_NAME, 0).value;
    NameExtends(a, b, j);
    var start := FirstOf(a, " \t", false, j + |LENGTH_NAME|);
    FirstOfExtends(a, b, " \t", false, j + |LENGTH_NAME|);
    FirstOfExtends(a, b, "\r\n", true, start);
    SliceOfPrefix(a, b, start, FirstOf(a, "\r\n", true, start));
  }

  lemma SliceOfPrefix(a: string, b: string, i: nat, j: nat)
    requires i <= j <= |a|
    ensures (a + b)[i..j] == a[i..j]
  {
  }

  lemma LengthBeforeCrLf(s: string, k: nat, m: nat, h: nat)
    requires CompleteLf(s, k, m) && Find(s, CRLF2, 0) == Some(h) && h > k
    ensures ContentLength(s[..h]) == Some(m)
  {
    FindFirst(s, LF2, 0);
    LineFeedsAt(s, k);
    NotTheSamePlace(s, k, h);
    var rest := s[k..h];
    assert s[..h] == s[..k] + rest && rest[0] == '\n';
    LengthExtends(s[..k], rest);
  }

  lemma WaitsForMore(all: string, split: Split, n: nat)
    requires FindSplit(all) == Some(split) && ContentLength(all[..split.headerEnd]) == Some(n)
    requires |all| - split.bodyOffset < n
    ensures Decide(all) == Wait
  {
  }

  lemma BeforeCrLfWaits(s: string, k: nat, m: nat, h: nat, all: string)
    requires CompleteLf(s, k, m) && Find(s, CRLF2, 0) == Some(h) && all <= s && |all| < h + 4
    ensures Decide(all) == Wait
  {
    PrefixOfPrefix(s, all, 0);
    FindInPrefix(s, |all|, CRLF2);
    DecideOnLfPrefix(s, k, m, all);
  }

  lemma AfterCrLfWaits(s: string, k: nat, m: nat, h: nat, all: string)
    requires CompleteLf(s, k, m) && Find(s, CRLF2, 0) == Some(h) && h > k && all <= s && |all| >= h + 4
    ensures Decide(all) == Wait
  {
    LengthBeforeCrLf(s, k, m, h);
    PrefixOfPrefix(s, all, h);
    SplitOfLongPrefix(s, h, |all|);
    WaitsForMore(all, Split(h, h + 4), m);
  }

  /** A CRLFCRLF inside the body makes the server wait for ever, although all bytes have arrived and
      however they did. */
  lemma {:induction false} CrLfInBodyNeverAnswered(s: string, k: nat, m: nat, h: nat, chunks: seq<string>)
    requires CompleteLf(s, k, m) && Find(s, CRLF2, 0) == Some(h) && h > k && Concat(chunks) <= s
    ensures Feed(chunks) == Connection(Concat(chunks), Reading)
  {
    if chunks != [] {
      var before := chunks[..|chunks|-1];
      assert Concat(before) <= Concat(chunks);
      CrLfInBodyNeverAnswered(s, k, m, h, before);
      if |Concat(chunks)| < h + 4 {
        BeforeCrLfWaits(s, k, m, h, Concat(chunks));
      } else {
        AfterCrLfWaits(s, k, m, h, Concat(chunks));
      }
    }
  }

  // ---- The size limit and the end of the stream ----

  /** Under every cut at most 1 MiB is kept, and a connection that goes on reading has kept everything. */
  lemma {:induction false} NeverMoreThanLimit(chunks: seq<string>)
    ensures |Feed(chunks).data| <= 1048576
    ensures Feed(chunks).phase.Reading? ==> Feed(chunks).data == Concat(chunks)
  {
    if chunks != [] {
      NeverMoreThanLimit(chunks[..|chunks|-1]);
    }
  }

  /** A stream whose headers never end is read up to 1 MiB and then refused, under every cut. */
  lemma {:induction false} EndlessHeadersAreRefused(chunks: seq<string>)
    requires Find(Concat(chunks), CRLF2, 0) == None && Find(Concat(chunks), LF2, 0) == None
    ensures Feed(chunks).phase == if |Concat(chunks)| <= 1048576 then Reading else TooLarge
  {
    if chunks != [] {
      var before, all := chunks[..|chunks|-1], Concat(chunks);
      assert all[..|Concat(before)|] == Concat(before);
      FindInPrefix(all, |Concat(before)|, CRLF2);
      FindInPrefix(all, |Concat(before)|, LF2);
      EndlessHeadersAreRefused(before);
      NeverMoreThanLimit(before);
    }
  }

  /** A read that also reports the end of the stream does what it would do without, except that it does not
      wait; any other error ends the connection and its bytes are not looked at. */
  lemma LastRead(data: string, chunk: string)
    ensures var c := Connection(data, Reading);
      var plain, last := ReadStep(c, NoError, chunk), ReadStep(c, Eof, chunk);
      && last.data == plain.data && last.phase == (if plain.phase.Reading? then Abandoned else plain.phase)
      && ReadStep(c, OtherError, chunk) == Connection(data, Abandoned)
  {
  }

  /** A stream that ends is answered exactly if it holds all of the declared body, however it is cut. */
  lemma {:induction false} EndOfStream(s: string, h: nat, n: nat, chunks: seq<string>, chunk: string)
    requires Complete(s, h, n) && NoEarlySplit(s, h) && Concat(chunks) + chunk <= s && Feed(chunks).phase.Reading?
    ensures ReadStep(Feed(chunks), Eof, chunk) ==
      if |Concat(chunks) + chunk| < h + 4 + n then Connection(Concat(chunks) + chunk, Abandoned) else Delivered(s, h + 4, n)
  {
    var all := chunks + [chunk];
    assert all[..|chunks|] == chunks;
    NeverMoreThanLimit(chunks);
    AnyFragmentation(s, h, n, all);
    LastRead(Concat(chunks), chunk);
  }

  // ---- Streams that go wrong ----

  lemma NoLengthIn(headers: string)
    requires |headers| < |LENGTH_NAME|
    ensures ContentLength(headers) == Some(0)
  {
    FindNone(LowerAll(headers), LENGTH_NAME, 0);
  }

  /** A request whose first header line is followed by an LFLF: cut behind that, it is handed over before
      its CRLFCRLF has arrived. */
  lemma CutChangesOutcome()
    ensures var s := "A\n\nB\r\n\r\n";
      Complete(s, 4, 0) && !NoEarlySplit(s, 4) && !FragmentationIndependent(s)
  {
    var s := "A\n\nB\r\n\r\n";
    FindByFirst(s, CRLF2, 4);
    assert s[..4] == "A\n\nB" && s[..4][..1] == "A";
    FindByFirst(s[..4], LF2, 1);
    NoLengthIn(s[..4]);
    NoLengthIn(s[..4][..1]);
    FragmentationIndependentIff(s, 4, 0);
  }

  const FOUR_BYTES := "Content-Length:4"

  lemma FourBytesDeclared()
    ensures ContentLength(FOUR_BYTES) == Some(4)
  {
    var hs := FOUR_BYTES;
    assert LowerAll(hs) == "content-length:4";
    FindIs(LowerAll(hs), LENGTH_NAME, 0, 0);
    FirstOfIs(hs, " \t", false, 15, 15);
    FirstOfIs(hs, "\r\n", true, 15, 16);
    assert hs[15..16] == "4";
    FirstOfIs("4", SPACES, false, 0, 0);
    assert "4"[0..] == "4" && "4"[1..] == "" && "4"[..0] == "";
    assert LeadingDigits("4") == "4" && DigitValue("4") == 4;
  }

  /** A complete request with LFLF behind its headers and a CRLFCRLF as its body: it is never answered. */
  lemma NeverAnswered(chunks: seq<string>)
    requires Concat(chunks) == FOUR_BYTES + LF2 + CRLF2
    ensures CompleteLf(Concat(chunks), 16, 4) && Feed(chunks) == Connection(Concat(chunks), Reading)
  {
    var s := FOUR_BYTES + LF2 + CRLF2;
    FindByFirst(s, LF2, 16);
    FindByFirst(s, CRLF2, 18);
    assert s[..16] == FOUR_BYTES;
    FourBytesDeclared();
    CrLfInBodyNeverAnswered(s, 16, 4, 18, chunks);
  }

  // ---- The client's printer ----

  const REQUEST_LINE := "POST /RPC2 HTTP/1.1\r\n"
  const TYPE_LINE := "Content-Type: text/xml\r\n"
  const LENGTH_LABEL := "Content-Length"
  const CLOSE_LINE := "\r\nConnection: close"

  /** Everything up to the printed number, then everything up to the empty line. */
  function BeforeNumber(): string {
    REQUEST_LINE + TYPE_LINE + LENGTH_LABEL + ": "
  }

  function HeadersFor(n: nat): string {
    BeforeNumber() + ToDecimal(n) + CLOSE_LINE
  }

  function RequestFor(body: string): string {
    HeadersFor(|body|) + CRLF2 + body
  }

  method BuildHttpRequest(body: string) returns (request: string)
    ensures request == RequestFor(body)
  {
    request := "POST /RPC2 HTTP/1.1\r\n";
    request := request + "Content-Type: text/xml\r\n";
    request := request + "Content-Length: ";
    assert "Content-Length: " == LENGTH_LABEL + ": ";
    assert request == BeforeNumber();
    request := request + ToDecimal(|body|);
    request := request + "\r\n";
    request := request + "Connection: close\r\n";
    request := request + "\r\n";
    assert "\r\n" + "Connection: close\r\n" + "\r\n" == CLOSE_LINE + CRLF2;
    assert request == BeforeNumber() + ToDecimal(|body|) + ("\r\n" + "Connection: close\r\n" + "\r\n");
    assert request == HeadersFor(|body|) + CRLF2;
    request := request + body;
  }

  /** Each line feed in `s` is followed by a letter that begins a header name. */
  predicate LinesBeginWithC(s: string) {
    forall i :: 0 <= i < |s| && s[i] == '\n' ==> i + 1 < |s| && s[i + 1] == 'C'
  }

  lemma LinesOfAppend(s: string, t: string)
    requires LinesBeginWithC(s) && LinesBeginWithC(t)
    ensures LinesBeginWithC(s + t)
  {
  }

  lemma LinesOfFirstPart()
    ensures LinesBeginWithC(REQUEST_LINE + "C") && LinesBeginWithC(TYPE_LINE + "C")
  {
  }

  const TYPE_REST := "ontent-Type: text/xml\r\nC"

  lemma LinesOfTypeLine()
    ensures "C" + TYPE_REST == TYPE_LINE + "C" && LinesBeginWithC(TYPE_REST)
  {
    LinesOfFirstPart();
    var all := "C" + TYPE_REST;
    assert all == TYPE_LINE + "C";
    assert forall i :: 0 <= i < |TYPE_REST| ==> TYPE_REST[i] == all[i + 1];
  }

  lemma LinesOfHeaders(n: nat)
    ensures LinesBeginWithC(HeadersFor(n))
  {
    LinesOfFirstPart();
    LinesOfTypeLine();
    LinesOfTail(n);
    var tail := "ontent-Length" + ": " + ToDecimal(n) + CLOSE_LINE;
    LinesOfAppend(REQUEST_LINE + "C", TYPE_REST);
    LinesOfAppend(REQUEST_LINE + "C" + TYPE_REST, tail);
    HeadersInPieces(n);
  }

  lemma HeadersInPieces(n: nat)
    ensures HeadersFor(n) == REQUEST_LINE + "C" + TYPE_REST + ("ontent-Length" + ": " + ToDecimal(n) + CLOSE_LINE)
  {
    var d, end := ToDecimal(n), CLOSE_LINE;
    assert "C" + "ontent-Length" == LENGTH_LABEL;
    assert "C" + TYPE_REST == TYPE_LINE + "C";
    assert HeadersFor(n) == REQUEST_LINE + (TYPE_LINE + "C") + ("ontent-Length" + ": " + d + end);
  }

  lemma LinesOfTail(n: nat)
    ensures LinesBeginWithC("ontent-Length" + ": " + ToDecimal(n) + CLOSE_LINE)
  {
    LinesOfAppend("ontent-Length" + ": ", ToDecimal(n));
    LinesOfAppend("ontent-Length" + ": " + ToDecimal(n), CLOSE_LINE);
  }

  lemma NoEmptyLineWithin(hs: string, body: string)
    requires LinesBeginWithC(hs)
    ensures Find(hs + CRLF2 + body, CRLF2, 0) == Some(|hs|) && Find(hs, LF2, 0) == None
  {
    var s, h := hs + CRLF2 + body, |hs|;
    assert s[h..h + 4] == CRLF2 && s[h] == CRLF2[0];
    forall k: nat | k < h
      ensures !OccursAt(s, CRLF2, k)
    {
      assert s[k..k + 4][1] == s[k + 1] && s[k..k + 4][2] == s[k + 2];
      assert k + 1 < h ==> s[k + 1] == hs[k + 1];
      assert k + 2 < h ==> s[k + 2] == hs[k + 2];
    }
    FindIs(s, CRLF2, 0, h);
    forall k: nat
      ensures !OccursAt(hs, LF2, k)
    {
      assert k + 2 <= h ==> hs[k..k + 2][0] == hs[k] && hs[k..k + 2][1] == hs[k + 1];
    }
    FindNone(hs, LF2, 0);
  }

  /** The only empty line of a printed request is the one before the body. */
  lemma HeadersEndWhereTheyShould(body: string)
    ensures var h := |HeadersFor(|body|)|;
      Find(RequestFor(body), CRLF2, 0) == Some(h) && Find(RequestFor(body)[..h], LF2, 0) == None
      && RequestFor(body)[..h] == HeadersFor(|body|)
  {
    LinesOfHeaders(|body|);
    var hs := HeadersFor(|body|);
    NoEmptyLineWithin(hs, body);
    assert (hs + CRLF2 + body)[..|hs|] == hs;
  }

  const BEFORE_COLON := REQUEST_LINE + TYPE_LINE + LENGTH_LABEL

  lemma ColonsBeforeLength(i: nat)
    requires i < |BEFORE_COLON|
    ensures BEFORE_COLON[i] == ':' ==> i == 33
  {
    var k := i - |REQUEST_LINE|;
    assert BEFORE_COLON[i] == if k < 0 then REQUEST_LINE[i] else if k < |TYPE_LINE| then TYPE_LINE[k]
      else LENGTH_LABEL[k - |TYPE_LINE|];
  }

  /** The name cannot match earlier: its colon would have to be the one of the line before. */
  lemma NoEarlierMatch(low: string, j: nat)
    requires j < 45 && |low| >= 60 && forall i :: 0 <= i < |BEFORE_COLON| ==> low[i] == ToLower(BEFORE_COLON[i])
    ensures !OccursAt(low, LENGTH_NAME, j)
  {
    ColonsBeforeLength(j + 14);
    assert low[j..j + 15][14] == low[j + 14];
    assert low[j..j + 15][0] == low[j];
    assert BEFORE_COLON[19] == REQUEST_LINE[19];
  }

  lemma NameFoundIn(hs: string)
    requires BEFORE_COLON <= hs && |hs| >= 60 && hs[45..60] == "Content-Length:"
    ensures Find(LowerAll(hs), LENGTH_NAME, 0) == Some(45)
  {
    var low := LowerAll(hs);
    assert forall i :: 0 <= i < 15 ==> low[45..60][i] == ToLower("Content-Length:"[i]);
    assert low[45..60] == LENGTH_NAME;
    forall j: nat | j < 45
      ensures !OccursAt(low, LENGTH_NAME, j)
    {
      NoEarlierMatch(low, j);
    }
    FindIs(low, LENGTH_NAME, 0, 45);
  }

  lemma LengthHeaderFound(n: nat)
    ensures Find(LowerAll(HeadersFor(n)), LENGTH_NAME, 0) == Some(45) && |BeforeNumber()| == 61
  {
    HeadersStart(n);
    NameFoundIn(HeadersFor(n));
  }

  lemma HeadersStart(n: nat)
    ensures BEFORE_COLON <= HeadersFor(n) && |HeadersFor(n)| >= 60 && HeadersFor(n)[45..60] == "Content-Length:"
  {
    var rest := " " + ToDecimal(n) + CLOSE_LINE;
    assert ": " == ":" + " " && "Content-Length:" == LENGTH_LABEL + ":";
    assert HeadersFor(n) == REQUEST_LINE + TYPE_LINE + "Content-Length:" + rest;
  }

  lemma {:induction false} LeadingDigitsOf(d: string, rest: string)
    requires forall i :: 0 <= i < |d| ==> IsDigit(d[i])
    requires rest == "" || !IsDigit(rest[0])
    ensures LeadingDigits(d + rest) == d
    decreases |d|
  {
    if d == "" {
      assert d + rest == rest;
    } else {
      assert (d + rest)[0] == d[0] && (d + rest)[1..] == d[1..] + rest;
      LeadingDigitsOf(d[1..], rest);
    }
  }

  /** Parsing a printed number gives the number. */
  lemma StoullOfDecimal(n: nat)
    requires n < 0x1_0000_0000_0000_0000
    ensures Stoull(ToDecimal(n)) == Some(n)
  {
    var d := ToDecimal(n);
    assert IsDigit(d[0]);
    FirstOfIs(d, SPACES, false, 0, 0);
    assert d[0..] == d && d + "" == d;
    LeadingDigitsOf(d, "");
    DecimalRoundTrip(n);
  }

  lemma PastBlanks(blanks: string, t: string)
    requires (forall i :: 0 <= i < |blanks| ==> blanks[i] in SPACES) && t != "" && t[0] !in SPACES
    ensures (blanks + t)[FirstOf(blanks + t, SPACES, false, 0)..] == t
  {
    assert (blanks + t)[|blanks|] == t[0];
    FirstOfIs(blanks + t, SPACES, false, 0, |blanks|);
  }

  lemma DigitsFound(sign: string, n: nat, rest: string)
    requires (sign == "" || sign == "+" || sign == "-") && (rest == "" || !IsDigit(rest[0]))
    ensures var t := sign + ToDecimal(n) + rest;
      && t != "" && t[0] !in SPACES && (sign != "" <==> t[0] == '+' || t[0] == '-') && (sign == "-" <==> t[0] == '-')
      && LeadingDigits(if sign != "" then t[1..] else t) == ToDecimal(n)
  {
    var d := ToDecimal(n);
    assert IsDigit(d[0]);
    LeadingDigitsOf(d, rest);
    var t := sign + d + rest;
    if sign == "" {
      assert t == d + rest;
    } else {
      assert t[1..] == d + rest;
    }
  }

  /** What stoull makes of blanks, a sign, a number, and whatever else follows. */
  lemma StoullReads(blanks: string, sign: string, n: nat, rest: string)
    requires forall i :: 0 <= i < |blanks| ==> blanks[i] in SPACES
    requires (sign == "" || sign == "+" || sign == "-") && (rest == "" || !IsDigit(rest[0]))
    ensures Stoull(blanks + (sign + ToDecimal(n) + rest)) ==
      if n >= 0x1_0000_0000_0000_0000 then None
      else if sign == "-" && n > 0 then Some(0x1_0000_0000_0000_0000 - n) else Some(n)
  {
    DigitsFound(sign, n, rest);
    PastBlanks(blanks, sign + ToDecimal(n) + rest);
    DecimalRoundTrip(n);
  }

  lemma NumberFollows(before: string, d: string, after: string)
    requires before != "" && before[|before|-1] == ' ' && after != "" && after[0] == '\r'
    requires d != "" && forall i :: 0 <= i < |d| ==> IsDigit(d[i])
    ensures var hs, start := before + d + after, |before|;
      && FirstOf(hs, " \t", false, start - 1) == start
      && FirstOf(hs, "\r\n", true, start) == start + |d|
      && hs[start..start + |d|] == d
  {
    var hs, start, end := before + d + after, |before|, |before| + |d|;
    assert hs[start - 1] == ' ' && hs[start] == d[0] && IsDigit(d[0]) && hs[end] == '\r';
    FirstOfIs(hs, " \t", false, start - 1, start);
    forall j | start <= j < end
      ensures hs[j] !in "\r\n"
    {
      assert hs[j] == d[j - start] && IsDigit(d[j - start]);
    }
    FirstOfIs(hs, "\r\n", true, start, end);
  }

  lemma PrintedLengthParses(n: nat)
    requires n < 0x1_0000_0000_0000_0000
    ensures ContentLength(HeadersFor(n)) == Some(n)
  {
    LengthHeaderFound(n);
    assert BeforeNumber()[60] == ' ';
    NumberFollows(BeforeNumber(), ToDecimal(n), CLOSE_LINE);
    StoullOfDecimal(n);
  }

  lemma PrintedRequestComplete(body: string)
    requires |RequestFor(body)| <= MAX_REQUEST_SIZE
    ensures var s, h := RequestFor(body), |HeadersFor(|body|)|;
      Complete(s, h, |body|) && NoEarlySplit(s, h) && |s| == h + 4 + |body|
  {
    HeadersEndWhereTheyShould(body);
    PrintedLengthParses(|body|);
  }

  /** Whatever body is printed and however the request is cut on its way, the server extracts exactly
      that body. */
  lemma PrintedRequestArrives(body: string, chunks: seq<string>)
    requires |RequestFor(body)| <= MAX_REQUEST_SIZE && Concat(chunks) == RequestFor(body)
    ensures Feed(chunks).phase == Handed(RequestFor(body), Some(body))
  {
    PrintedRequestComplete(body);
    AnyFragmentation(RequestFor(body), |HeadersFor(|body|)|, |body|, chunks);
    WholeIsDelivered(HeadersFor(|body|), body);
  }

  lemma WholeIsDelivered(hs: string, body: string)
    ensures Delivered(hs + CRLF2 + body, |hs| + 4, |body|).phase == Handed(hs + CRLF2 + body, Some(body))
  {
    var s := hs + CRLF2 + body;
    assert s[..|s|] == s && s[|hs + CRLF2|..] == body;
  }
}

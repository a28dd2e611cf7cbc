/**
 The relay of media/proxy/relay.py: one reply put together from as many upstream connections as it
 takes, the retry budget of an open, and the bounded table of where sources led.
 */
module Relay {
  import opened Wrappers
  import opened Bytes
  import opened Decimals
  import opened HttpRange

  const MAX_RESUMES: nat := 5

  /** The range a body is picked up again with: from byte `start` to the end the player asked for. */
  datatype Request = Request(start: nat, last: string)

  /** What the header of a request says. */
  function RangeHeader(request: Request): string {
    "bytes=" + (Digits(request.start) + (['-'] + request.last))
  }

  lemma {:induction false} HeaderParts(first: string, last: string)
    requires Numeral(first) && AllDigits(last)
    ensures ParseRange("bytes=" + (first + (['-'] + last))) == Some((first, last))
  {
    var rest := first + (['-'] + last);
    var text := "bytes=" + rest;
    HeaderStripped(first, last);
    assert text[6..] == rest;
    DigitRunOf(first, ['-'] + last);
    assert rest[|first| + 1..] == last;
  }

  lemma {:induction false} HeaderStripped(first: string, last: string)
    requires Numeral(first) && AllDigits(last)
    ensures var text := "bytes=" + (first + (['-'] + last)); Strip(text) == text && "bytes=" <= text
  {
    var text := "bytes=" + (first + (['-'] + last));
    assert text[|text| - 1] == if |last| > 0 then last[|last| - 1] else '-';
    assert text[0] == 'b';
    StripNothing(text);
  }

  /** A request asks for what it says: its header reads back as its start and its end. */
  lemma {:induction false} RequestReadsBack(request: Request)
    requires AllDigits(request.last)
    ensures StartOf(Some(RangeHeader(request))) == (request.start, request.last)
  {
    DigitsReadBack(request.start);
    HeaderParts(Digits(request.start), request.last);
  }

  /** An upstream response.  `body` is what it will still deliver before it ends or breaks. */
  datatype Connection = Connection(status: nat, contentRange: string, body: seq<byte>) {

    /** Whether the `Content-Range` begins as one that starts at byte `n` does. */
    predicate SaysItStartsAt(n: nat) { "bytes " + Digits(n) + "-" <= contentRange }

    /** If this is a 206 that says it starts at byte `n` of `content`, its body is what lies there. */
    ghost predicate Honest(content: seq<byte>, offset: nat) {
      forall n: nat :: status == 206 && n <= |content| && SaysItStartsAt(offset + n) ==> body <= content[n..]
    }
  }

  /** A read takes any part of what is left, up to `wanted` bytes; nothing when it ends here, early or broken. */
  method Read(left: seq<byte>, wanted: nat) returns (block: seq<byte>, rest: seq<byte>)
    ensures |block| <= wanted && left == block + rest
  {
    var limit := if |left| < wanted then |left| else wanted;
    var n :| 0 <= n <= limit;
    block, rest := left[..n], left[n..];
  }

  /** How the reply's body came to its end. */
  datatype End = Complete | UpstreamEnded | GaveUp | CouldNotResume | Misplaced

  /** What the reply promises of its body, read off the first response. */
  datatype Promise = Promise(expected: Option<nat>, first: nat, last: string)

  /** A 206's body is what its Content-Range says; a 200 is the whole file, as long as it declares. */
  function PromiseOf(status: nat, contentLength: Option<string>, contentRange: string, asked: Option<string>): Promise {
    if status == 206 then
      match RangeLength(contentRange)
      case Some(span) => Promise(Some(span.length), span.start, StartOf(asked).1)
      case None => Promise(None, 0, "")
    else
      var declared := if contentLength.Some? && |contentLength.value| > 0 && AllDigits(contentLength.value)
                      then Some(Value(contentLength.value)) else None;
      Promise(declared, 0, "")
  }

  ghost predicate Sized(blocks: seq<seq<byte>>) {
    forall i :: 0 <= i < |blocks| ==> 0 < |blocks[i]| <= CHUNK_BYTES
  }

  /** The reply has come to byte `sent` of `content`, and what is left to read goes on from there. */
  ghost predicate InStep(content: seq<byte>, blocks: seq<seq<byte>>, left: seq<byte>, sent: nat) {
    && sent == |Joined(blocks)| && Joined(blocks) <= content
    && sent <= |content| && left <= content[sent..]
  }

  /** Each request made asks for the byte the reply had come to, and never goes back. */
  ghost predicate AskedFor(asked: seq<Request>, resumedAt: seq<nat>, promise: Promise, sent: nat) {
    && |asked| == |resumedAt|
    && (forall i :: 0 <= i < |asked| ==>
          resumedAt[i] <= sent && asked[i] == Request(promise.first + resumedAt[i], promise.last))
    && (forall i, j :: 0 <= i <= j < |resumedAt| ==> resumedAt[i] <= resumedAt[j])
  }

  /**
   The generator of `relay`.  `content` is what the reply should carry, from byte `promise.first` of
   the source on; `resumes` holds what each later open is answered with, nothing for a failed one.
   However the upstreams cut, the blocks put together are a prefix of `content`, never longer than
   promised, and shorter only for a reason; what is asked for again is each time the next byte.
   */
  method Chunks(ghost content: seq<byte>, response: Connection, promise: Promise, resumes: seq<Option<Connection>>)
    returns (blocks: seq<seq<byte>>, asked: seq<Request>, end: End, closed: set<nat>, ghost resumedAt: seq<nat>)
    requires response.body <= content && |resumes| == MAX_RESUMES
    requires forall i :: 0 <= i < |resumes| && resumes[i].Some? ==> resumes[i].value.Honest(content, promise.first)
    ensures Joined(blocks) <= content
    ensures Sized(blocks)
    ensures promise.expected.Some? ==> |Joined(blocks)| <= promise.expected.value
    ensures promise.expected.Some? ==> (|Joined(blocks)| == promise.expected.value <==> end == Complete)
    ensures promise.expected.None? <==> end == UpstreamEnded
    ensures end == UpstreamEnded ==> asked == []
    ensures |asked| <= MAX_RESUMES && (end == GaveUp ==> |asked| == MAX_RESUMES)
    ensures AskedFor(asked, resumedAt, promise, |Joined(blocks)|)
    ensures end == CouldNotResume || end == Misplaced ==> |asked| > 0 && resumedAt[|asked| - 1] == |Joined(blocks)|
    ensures end == CouldNotResume ==> resumes[|asked| - 1].None?
    ensures end == Misplaced ==>
      && resumes[|asked| - 1].Some?
      && (resumes[|asked| - 1].value.status != 206
          || !resumes[|asked| - 1].value.SaysItStartsAt(promise.first + |Joined(blocks)|))
    ensures forall k: nat :: k <= |asked| && (k > 0 ==> resumes[k - 1].Some?) ==> k in closed
  {
    hide Digits;
    // `at` numbers the current connection: 0 is the first response, then the resumes in turn.
    var current, at := response, 0;
    var left := current.body;
    var sent: nat := 0;
    blocks, asked, resumedAt, closed := [], [], [], {};
    assert content[0..] == content;
    while true
      invariant InStep(content, blocks, left, sent) && Sized(blocks)
      invariant promise.expected.Some? ==> sent <= promise.expected.value
      invariant |asked| <= MAX_RESUMES && (promise.expected.None? ==> asked == [])
      invariant AskedFor(asked, resumedAt, promise, sent)
      invariant at == |asked| && forall k: nat :: k < |asked| ==> k in closed
      decreases |content| - sent, MAX_RESUMES - |asked|
    {
      if promise.expected.Some? && sent >= promise.expected.value {
        end := Complete;
        break;
      }
      var wanted := if promise.expected.None? || CHUNK_BYTES <= promise.expected.value - sent
                    then CHUNK_BYTES else promise.expected.value - sent;
      ghost var before := sent;
      var more;
      more, blocks, left, sent := PassOn(content, blocks, left, sent, wanted);
      if more {
        AskedBefore(asked, resumedAt, promise, before, sent);
        continue;
      }
      if promise.expected.None? {
        end := UpstreamEnded;
        break;
      }
      if |asked| >= MAX_RESUMES {
        end := GaveUp;
        break;
      }
      closed := closed + {at};
      var answer := resumes[|asked|];
      AskedNext(asked, resumedAt, promise, sent);
      asked, resumedAt := asked + [Request(promise.first + sent, promise.last)], resumedAt + [sent];
      if answer.None? {
        end := CouldNotResume;
        break;
      }
      current, at := answer.value, |asked|;
      left := current.body;
      if current.status != 206 || !current.SaysItStartsAt(promise.first + sent) {
        end := Misplaced;
        break;
      }
      PickedUp(content, current, promise.first, sent);
    }
    closed := closed + {at};
  }

  /** One read; what it gives, if anything, is passed on. */
  method PassOn(ghost content: seq<byte>, sentBlocks: seq<seq<byte>>, connection: seq<byte>, sentBefore: nat, wanted: nat)
    returns (more: bool, blocks: seq<seq<byte>>, left: seq<byte>, sent: nat)
    requires InStep(content, sentBlocks, connection, sentBefore) && Sized(sentBlocks) && wanted <= CHUNK_BYTES
    ensures InStep(content, blocks, left, sent) && Sized(blocks)
    ensures sentBefore <= sent <= sentBefore + wanted && (more <==> sentBefore < sent)
    ensures more ==> exists block :: blocks == sentBlocks + [block]
    ensures !more ==> blocks == sentBlocks
  {
    var block, rest := Read(connection, wanted);
    if block == [] { return false, sentBlocks, rest, sentBefore; }
    Extends(content, sentBlocks, block, connection, rest, sentBefore);
    return true, sentBlocks + [block], rest, sentBefore + |block|;
  }

  lemma {:induction false} PickedUp(content: seq<byte>, answer: Connection, first: nat, sent: nat)
    requires answer.Honest(content, first) && sent <= |content|
    requires answer.status == 206 && answer.SaysItStartsAt(first + sent)
    ensures answer.body <= content[sent..]
  {
  }

  /** A block taken off the front of what a connection has left goes on where the reply stopped. */
  lemma {:induction false} Extends(content: seq<byte>, blocks: seq<seq<byte>>, block: seq<byte>,
                                   before: seq<byte>, after: seq<byte>, sent: nat)
    requires InStep(content, blocks, before, sent) && before == block + after
    requires Sized(blocks) && 0 < |block| <= CHUNK_BYTES
    ensures InStep(content, blocks + [block], after, sent + |block|) && Sized(blocks + [block])
  {
    JoinedAppend(blocks, block);
    assert before == content[sent..sent + |before|];
    assert block == before[..|block|] == content[sent..sent + |block|];
    assert after == before[|block|..] == content[sent + |block|..sent + |before|];
    assert content[..sent] + block == content[..sent + |block|];
  }

  lemma {:induction false} AskedNext(asked: seq<Request>, resumedAt: seq<nat>, promise: Promise, sent: nat)
    requires AskedFor(asked, resumedAt, promise, sent)
    ensures AskedFor(asked + [Request(promise.first + sent, promise.last)], resumedAt + [sent], promise, sent)
  {
  }

  lemma {:induction false} AskedBefore(asked: seq<Request>, resumedAt: seq<nat>, promise: Promise, sent: nat, later: nat)
    requires AskedFor(asked, resumedAt, promise, sent) && sent <= later
    ensures AskedFor(asked, resumedAt, promise, later)
  {
  }

  // ------------------------------------------------------------- the whole reply

  /** A response delivers the part of `file` it says it does: its range for a 206, all of it otherwise. */
  ghost predicate Truthful(answer: Connection, file: seq<byte>) {
    if answer.status == 206 then
      && (RangeLength(answer.contentRange).Some? ==>
            var start := RangeLength(answer.contentRange).value.start;
            start <= |file| && answer.body <= file[start..])
      && answer.Honest(file, 0)
    else answer.body <= file
  }

  /** Whether the relay knows where in the file the body of `response` starts. */
  predicate Placed(response: Connection) {
    response.status != 206 || RangeLength(response.contentRange).Some?
  }

  lemma {:induction false} TruthfulIsHonest(answer: Connection, file: seq<byte>, first: nat)
    requires Truthful(answer, file) && first <= |file|
    ensures answer.Honest(file[first..], first)
  {
    forall n: nat | answer.status == 206 && n <= |file[first..]| && answer.SaysItStartsAt(first + n)
      ensures answer.body <= file[first..][n..]
    {
      assert file[first..][n..] == file[first + n..];
      assert answer.SaysItStartsAt(0 + (first + n));
    }
  }

  /** A 206 with a content range in order, which is bytes `first` to `end` of the file. */
  ghost predicate IsPart(response: Connection, first: nat, end: nat) {
    && response.status == 206 && first <= end
    && exists a, b, total :: Written(response.contentRange, a, b, total)
         && Value(a) == first && Value(b) == end && (total == "*" || end < Value(total))
  }

  /** The whole file, of a length the response declares. */
  predicate IsWhole(response: Connection, contentLength: Option<string>, length: nat) {
    response.status != 206 && contentLength.Some? && Numeral(contentLength.value) && Value(contentLength.value) == length
  }

  /** What there is of the file from byte `first` to `end`, as far as the reply has come. */
  ghost predicate Carries(file: seq<byte>, reply: seq<byte>, first: nat, length: nat, complete: bool) {
    && first <= |file| && |reply| <= length && reply <= file[first..]
    && (complete <==> |reply| == length)
    && (complete ==> first + length <= |file| && reply == file[first..first + length])
  }

  /** Every request goes on at the byte of the file the reply had come to, with the end `last`. */
  ghost predicate GoesOn(requests: seq<Request>, first: nat, sent: nat, last: string) {
    && (forall i :: 0 <= i < |requests| ==> first <= requests[i].start <= first + sent && requests[i].last == last)
    && (forall i, j :: 0 <= i <= j < |requests| ==> requests[i].start <= requests[j].start)
  }

  /** The end the player's own range was written with, if it said where it begins. */
  ghost predicate PlayersEnd(asked: Option<string>, last: string) {
    && (forall a, b :: asked.Some? && Asks(asked.value, a, b) && a != [] ==> last == b)
    && ((asked.None? || forall a, b :: Asks(asked.value, a, b) ==> a == []) ==> last == "")
  }

  lemma {:induction false} PartIs(response: Connection, first: nat, end: nat)
    requires IsPart(response, first, end)
    ensures RangeLength(response.contentRange) == Some(Span(first, end - first + 1))
  {
    var a, b, total :| Written(response.contentRange, a, b, total)
      && Value(a) == first && Value(b) == end && (total == "*" || end < Value(total));
    hide Strip, Value;
    ContentRangeIff(response.contentRange, a, b, total);
    PartsLength(response.contentRange, a, b, total);
  }

  /** A resume has the end of the player's own range. */
  lemma {:induction false} EndOfRange(asked: Option<string>)
    ensures PlayersEnd(asked, StartOf(asked).1)
  {
    var header := asked.GetOr("");
    if asked.None? { assert ParseRange("") == None; }
    forall a, b ensures ParseRange(header) == Some((a, b)) <==> Asks(header, a, b) { RangeIff(header, a, b); }
    if ParseRange(header).Some? {
      assert Asks(header, ParseRange(header).value.0, ParseRange(header).value.1);
    }
  }

  lemma {:induction false} InOrderIsPart(response: Connection)
    requires response.status == 206 && RangeLength(response.contentRange).Some?
    ensures exists first: nat, end: nat :: IsPart(response, first, end)
  {
    hide Strip, Value;
    var (a, b, total) := ParseContentRange(response.contentRange).value;
    ContentRangeIff(response.contentRange, a, b, total);
    assert IsPart(response, Value(a), Value(b));
  }

  /** It is not known which bytes of the file the body is, or how many. */
  ghost predicate Unknown(response: Connection, contentLength: Option<string>) {
    && (forall first: nat, end: nat :: !IsPart(response, first, end))
    && (forall length: nat :: !IsWhole(response, contentLength, length))
  }

  lemma {:induction false} NothingPromised(response: Connection, contentLength: Option<string>, asked: Option<string>)
    requires Unknown(response, contentLength)
    ensures PromiseOf(response.status, contentLength, response.contentRange, asked).expected == None
  {
    if response.status == 206 {
      if RangeLength(response.contentRange).Some? { InOrderIsPart(response); }
    } else if contentLength.Some? && Numeral(contentLength.value) {
      assert IsWhole(response, contentLength, Value(contentLength.value));
    }
  }

  /**
   `relay`, from its first response on.  Of a 206 that says in order which bytes it is, and of a whole file of
   a declared length, the reply carries just those bytes, all of them exactly if it ends complete, whatever is
   cut and resumed on the way; each resume asks for the next byte, up to the end the player asked for.
   A body of which that is not known is passed on as it is and never resumed.
   */
  method RelaySource(ghost file: seq<byte>, response: Connection, contentLength: Option<string>, asked: Option<string>,
                     resumes: seq<Option<Connection>>)
    returns (blocks: seq<seq<byte>>, end: End, requests: seq<Request>)
    requires |resumes| == MAX_RESUMES && Truthful(response, file)
    requires forall i :: 0 <= i < |resumes| && resumes[i].Some? ==> Truthful(resumes[i].value, file)
    ensures forall first: nat, last: nat :: IsPart(response, first, last) ==>
      && Carries(file, Joined(blocks), first, last + 1 - first, end == Complete)
      && exists playersEnd :: PlayersEnd(asked, playersEnd) && GoesOn(requests, first, |Joined(blocks)|, playersEnd)
    ensures forall length: nat :: IsWhole(response, contentLength, length) ==>
      && Carries(file, Joined(blocks), 0, length, end == Complete)
      && GoesOn(requests, 0, |Joined(blocks)|, "")
    ensures Unknown(response, contentLength) ==> end == UpstreamEnded && requests == [] && Joined(blocks) <= response.body
  {
    var promise := PromiseOf(response.status, contentLength, response.contentRange, asked);
    blocks, end, requests := RelayPromise(file, response, promise, resumes);
    forall first: nat, last: nat | IsPart(response, first, last)
      ensures Carries(file, Joined(blocks), first, last + 1 - first, end == Complete)
      ensures PlayersEnd(asked, promise.last) && GoesOn(requests, first, |Joined(blocks)|, promise.last)
    {
      PartIs(response, first, last);
      EndOfRange(asked);
    }
    if Unknown(response, contentLength) { NothingPromised(response, contentLength, asked); }
  }

  /** The same, told by what the reply promises. */
  method RelayPromise(ghost file: seq<byte>, response: Connection, promise: Promise, resumes: seq<Option<Connection>>)
    returns (blocks: seq<seq<byte>>, end: End, requests: seq<Request>)
    requires |resumes| == MAX_RESUMES && Truthful(response, file)
    requires forall i :: 0 <= i < |resumes| && resumes[i].Some? ==> Truthful(resumes[i].value, file)
    requires if response.status != 206 then promise.first == 0
      else match RangeLength(response.contentRange)
        case Some(span) => promise.first == span.start
        case None => promise.expected == None
    ensures promise.expected.Some? ==> Carries(file, Joined(blocks), promise.first, promise.expected.value, end == Complete)
    ensures GoesOn(requests, promise.first, |Joined(blocks)|, promise.last)
    ensures promise.expected.None? ==> end == UpstreamEnded && requests == [] && Joined(blocks) <= response.body
  {
    if promise.expected.None? {
      blocks, end, requests := Unplaced(response, promise);
      return;
    }
    assert file[0..] == file;
    ghost var content := file[promise.first..];
    forall i | 0 <= i < |resumes| && resumes[i].Some? ensures resumes[i].value.Honest(content, promise.first) {
      TruthfulIsHonest(resumes[i].value, file, promise.first);
    }
    var closed;
    ghost var resumedAt;
    blocks, requests, end, closed, resumedAt := Chunks(content, response, promise, resumes);
  }

  method Unplaced(response: Connection, promise: Promise)
    returns (blocks: seq<seq<byte>>, end: End, requests: seq<Request>)
    requires promise.expected.None?
    ensures Joined(blocks) <= response.body && end == UpstreamEnded && requests == []
  {
    var closed;
    ghost var resumedAt;
    blocks, requests, end, closed, resumedAt :=
      Chunks(response.body, response, promise, seq(MAX_RESUMES, _ => None));
  }

  // ------------------------------------------------------------ opening, in time

  // Milliseconds.
  const RETRY_DELAYS: seq<nat> := [500, 1500]
  const OPEN_TIMEOUT: nat := 7000
  const CONNECT_TIMEOUT: nat := 3000
  const OPEN_BUDGET: nat := 20000

  datatype Answer = Ok | Status(code: nat) | Unreachable

  /** One try: how long it takes, which its timeout bounds only for each wait on the network, and how it turns out. */
  datatype Try = Try(took: nat, answer: Answer)

  datatype Opened = Response | SourceRefused(code: nat) | SourceUnavailable(code: nat) | SourceUnreachable

  predicate Transient(code: nat) { code in {408, 425, 429, 500, 502, 503, 504} }

  /** An answer another try may better: the host was busy or silent, the request was not wrong. */
  predicate Retried(answer: Answer) {
    match answer
    case Ok => false
    case Status(code) => Transient(code)
    case Unreachable => true
  }

  function Verdict(answer: Answer): Opened {
    match answer
    case Ok => Response
    case Status(code) => if code == 404 || code == 416 then SourceRefused(code) else SourceUnavailable(code)
    case Unreachable => SourceUnreachable
  }

  /** When try `k` begins, each before it having been followed by its delay. */
  function BeginsAt(tries: seq<Try>, k: nat): nat
    requires k <= |tries| && k <= |RETRY_DELAYS|
  {
    if k == 0 then 0 else BeginsAt(tries, k - 1) + tries[k - 1].took + RETRY_DELAYS[k - 1]
  }

  /**
   Try `k` is followed by another: its answer is worth one, it is not the last there is, and what was left
   of the budget when it began is more than its delay and a connect take.  What is left when it has ended
   is not asked.
   */
  predicate Followed(tries: seq<Try>, k: nat)
    requires k < |tries| == |RETRY_DELAYS| + 1
  {
    && k < |RETRY_DELAYS| && Retried(tries[k].answer)
    && OPEN_BUDGET - BeginsAt(tries, k) > RETRY_DELAYS[k] + CONNECT_TIMEOUT
  }

  /** What is the host's doing rather than the request's: it is silent, busy or broken. */
  predicate TellsOfTheHost(answer: Answer) {
    answer == Unreachable || exists code :: code in {408, 425, 429, 500, 502, 503, 504} && answer == Status(code)
  }

  /** `_open`: as many tries as follow one another, and what the last was answered with is what the caller sees. */
  method Open(tries: seq<Try>) returns (result: Opened, used: nat, elapsed: nat)
    requires |tries| == |RETRY_DELAYS| + 1
    ensures 1 <= used <= |tries|
    ensures forall k :: 0 <= k < used - 1 ==> Followed(tries, k)
    ensures !Followed(tries, used - 1)
    ensures forall k :: 0 <= k < used - 1 ==> TellsOfTheHost(tries[k].answer)
    ensures var answer := tries[used - 1].answer;
      match result
      case Response => answer == Ok
      case SourceRefused(code) => answer == Status(code) && code in {404, 416}
      case SourceUnavailable(code) => answer == Status(code) && code !in {404, 416}
      case SourceUnreachable => answer == Unreachable
    ensures used < |tries| && TellsOfTheHost(tries[used - 1].answer) ==>
      OPEN_BUDGET - BeginsAt(tries, used - 1) <= RETRY_DELAYS[used - 1] + CONNECT_TIMEOUT
    ensures elapsed == BeginsAt(tries, used - 1) + tries[used - 1].took
  {
    elapsed := 0;
    for attempt := 0 to |tries|
      invariant forall k :: 0 <= k < attempt ==> Followed(tries, k)
      invariant attempt < |tries|
      invariant forall k :: 0 <= k < attempt ==> TellsOfTheHost(tries[k].answer)
      invariant elapsed == BeginsAt(tries, attempt)
    {
      var left := OPEN_BUDGET - elapsed;
      var last := attempt == |RETRY_DELAYS| || left <= RETRY_DELAYS[attempt] + CONNECT_TIMEOUT;
      elapsed := elapsed + tries[attempt].took;
      used := attempt + 1;
      result := Verdict(tries[attempt].answer);
      if tries[attempt].answer == Ok || result.SourceRefused? || last || !Retried(tries[attempt].answer) { return; }
      elapsed := elapsed + RETRY_DELAYS[attempt];
    }
  }

  /** Try `k` is made. */
  predicate IsMade(tries: seq<Try>, k: nat)
    requires k < |tries| == |RETRY_DELAYS| + 1
  {
    forall j :: 0 <= j < k ==> Followed(tries, j)
  }

  /**
   A try is made past the budget exactly if the first took more than the budget less its delay, or both the
   first two were made in good time and took more than it less both delays together.
   */
  lemma {:induction false} PastBudgetIff(tries: seq<Try>)
    requires |tries| == |RETRY_DELAYS| + 1
    ensures (exists k :: 0 <= k < |tries| && IsMade(tries, k) && BeginsAt(tries, k) > OPEN_BUDGET)
      <==> Retried(tries[0].answer)
           && (|| tries[0].took > 19500
               || (tries[0].took < 15000 && Retried(tries[1].answer) && tries[0].took + tries[1].took > 18000))
  {
    assert |tries| == 3 && RETRY_DELAYS[0] == 500 && RETRY_DELAYS[1] == 1500;
    FirstTries(tries);
    assert IsMade(tries, 1) <==> Followed(tries, 0);
    assert IsMade(tries, 2) <==> Followed(tries, 0) && Followed(tries, 1);
  }

  lemma {:induction false} FirstTries(tries: seq<Try>)
    requires |tries| == |RETRY_DELAYS| + 1
    ensures BeginsAt(tries, 0) == 0
    ensures BeginsAt(tries, 1) == tries[0].took + 500
    ensures BeginsAt(tries, 2) == tries[0].took + tries[1].took + 2000
    ensures Followed(tries, 0) <==> Retried(tries[0].answer)
    ensures Followed(tries, 1) <==> Retried(tries[1].answer) && tries[0].took < 15000
    ensures !Followed(tries, 2)
  {
    assert BeginsAt(tries, 1) == BeginsAt(tries, 0) + tries[0].took + RETRY_DELAYS[0];
    assert BeginsAt(tries, 2) == BeginsAt(tries, 1) + tries[1].took + RETRY_DELAYS[1];
  }

  /** A host that holds the first try for 25 seconds, its name slow to resolve, is asked again at 25.5 seconds. */
  lemma {:induction false} AskedPastBudget(tries: seq<Try>)
    requires |tries| == |RETRY_DELAYS| + 1 && tries[0] == Try(25000, Unreachable)
    ensures IsMade(tries, 1) && BeginsAt(tries, 1) == 25500 && BeginsAt(tries, 1) > OPEN_BUDGET
  {
    FirstTries(tries);
  }

  /** The timeout a try begun at `began` is given. */
  function TimeoutAt(began: nat): (timeout: nat)
    ensures 1000 <= timeout <= 7000
    ensures 13000 <= began <= 19000 ==> began + timeout == 20000
    ensures (began <= 13000 ==> timeout == 7000) && (began >= 19000 ==> timeout == 1000)
  {
    var left := OPEN_BUDGET - began;
    var floor := if left > 1000 then left else 1000;
    if OPEN_TIMEOUT < floor then OPEN_TIMEOUT else floor
  }

  /**
   Were every try held to its timeout as a whole, all of them would fit the budget, and a host worth another
   try would always be asked three times.
   */
  lemma {:induction false} HeldToTimeouts(tries: seq<Try>, k: nat)
    requires |tries| == |RETRY_DELAYS| + 1 && k < |tries| && IsMade(tries, k)
    requires forall j :: 0 <= j < |tries| && IsMade(tries, j) ==> tries[j].took <= TimeoutAt(BeginsAt(tries, j))
    ensures BeginsAt(tries, k) + tries[k].took <= OPEN_BUDGET
    ensures k < |RETRY_DELAYS| ==> (Followed(tries, k) <==> Retried(tries[k].answer))
  {
    FirstTries(tries);
    assert IsMade(tries, 0);
    if k > 0 { assert Followed(tries, 0) && IsMade(tries, 1); }
  }

  // -------------------------------------------------- where sources led

  const ARRIVED_KEPT: nat := 64

  /** How one open ended: at which address, or with which status. */
  datatype SourceAnswer = Arrived(final: string) | Failed(status: nat)

  /** The table once `url`, which is not in it, has been asked: where it led is the newest entry, for the oldest if it is full. */
  function Noted(arrived: map<string, string>, order: seq<string>, url: string, own: SourceAnswer)
    : (map<string, string>, seq<string>)
  {
    if own.Failed? || own.final == [] || own.final == url then (arrived, order)
    else if |order| >= ARRIVED_KEPT then ((arrived - {order[0]})[url := own.final], order[1..] + [url])
    else (arrived[url := own.final], order + [url])
  }

  /** The addresses sources redirected to, the oldest first, and never more than are kept. */
  class Redirects {
    var arrived: map<string, string>
    var order: seq<string>

    ghost predicate Valid()
      reads this
    {
      && (forall url :: url in arrived <==> url in order)
      && (forall i, j :: 0 <= i < j < |order| ==> order[i] != order[j])
      && |order| <= ARRIVED_KEPT
      && (forall url :: url in arrived ==> arrived[url] != [] && arrived[url] != url)
    }

    constructor ()
      ensures Valid() && order == []
    {
      arrived, order := map[], [];
    }

    /**
     `_open_source`, given how the address kept for `url` and how `url` itself would answer.  The kept
     address answers, refusing a range included, or is forgotten and `url` is asked; where that leads is
     kept, the oldest entry making room.
     */
    method OpenSource(url: string, kept: SourceAnswer, own: SourceAnswer) returns (answer: SourceAnswer)
      requires Valid()
      modifies this
      ensures Valid()
      ensures url in old(arrived) && (kept.Arrived? || kept.status == 416) ==>
        answer == kept && arrived == old(arrived) && order == old(order)
      ensures !(url in old(arrived) && (kept.Arrived? || kept.status == 416)) ==> answer == own
      ensures !(url in old(arrived) && (kept.Arrived? || kept.status == 416)) ==>
        (arrived, order) == Noted(old(arrived) - {url}, Without(old(order), url), url, own)
    {
      if url in arrived {
        if kept.Arrived? || kept.status == 416 { return kept; }
        Forget(url);
      } else {
        WithoutNone(order, url);
        assert arrived - {url} == arrived;
      }
      answer := own;
      Note(url, own);
    }

    /** Where `url` led, if it led anywhere else. */
    method Note(url: string, own: SourceAnswer)
      requires Valid() && url !in order
      modifies this
      ensures Valid()
      ensures (arrived, order) == Noted(old(arrived), old(order), url, own)
    {
      if own.Failed? || own.final == [] || own.final == url { return; }
      Keep(url, own.final);
    }

    method Keep(url: string, final: string)
      requires Valid() && url !in order && final != [] && final != url
      modifies this
      ensures Valid()
      ensures if |old(order)| == ARRIVED_KEPT
        then arrived == (old(arrived) - {old(order)[0]})[url := final] && order == old(order)[1..] + [url]
        else arrived == old(arrived)[url := final] && order == old(order) + [url]
    {
      if |order| >= ARRIVED_KEPT { Forget(order[0]); }
      ghost var was := order;
      arrived, order := arrived[url := final], order + [url];
      assert forall u :: u in order <==> u in was || u == url;
    }

    method Forget(url: string)
      requires Valid() && url in order
      modifies this
      ensures Valid() && arrived == old(arrived) - {url} && url !in order
      ensures order == Without(old(order), url) && |order| == |old(order)| - 1
      ensures old(order)[0] == url ==> order == old(order)[1..]
    {
      var k :| 0 <= k < |order| && order[k] == url;
      WithoutOne(order, k);
      WithoutAt(order, k);
      arrived, order := arrived - {url}, order[..k] + order[k + 1..];
    }
  }

  /** The strings but `url`, in the order they were in. */
  function Without(order: seq<string>, url: string): seq<string> {
    if order == [] then []
    else
      var last := |order| - 1;
      Without(order[..last], url) + if order[last] == url then [] else [order[last]]
  }

  lemma {:induction false} WithoutNone(order: seq<string>, url: string)
    requires url !in order
    ensures Without(order, url) == order
  {
    if order != [] {
      var last := |order| - 1;
      WithoutNone(order[..last], url);
      assert order == order[..last] + [order[last]];
    }
  }

  lemma {:induction false} WithoutAt(order: seq<string>, k: nat)
    requires k < |order| && forall i, j :: 0 <= i < j < |order| ==> order[i] != order[j]
    ensures Without(order, order[k]) == order[..k] + order[k + 1..]
  {
    var last := |order| - 1;
    if k == last {
      WithoutNone(order[..last], order[k]);
    } else {
      WithoutAt(order[..last], k);
      assert order[..last][..k] + order[..last][k + 1..] + [order[last]] == order[..k] + order[k + 1..];
    }
  }

  /** One of different strings taken out: the others stay, different as they were. */
  lemma {:induction false} WithoutOne(order: seq<string>, k: nat)
    requires k < |order| && forall i, j :: 0 <= i < j < |order| ==> order[i] != order[j]
    ensures var rest := order[..k] + order[k + 1..];
      && (forall i, j :: 0 <= i < j < |rest| ==> rest[i] != rest[j])
      && (forall u :: u in rest <==> u in order && u != order[k])
  {
    var rest := order[..k] + order[k + 1..];
    forall u | u in order && u != order[k] ensures u in rest {
      var i :| 0 <= i < |order| && order[i] == u;
      assert rest[if i < k then i else i - 1] == u;
    }
  }
}

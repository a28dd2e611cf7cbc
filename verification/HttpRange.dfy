/**
 Byte ranges in media/proxy/relay.py: the `Range` a player asks with and the `Content-Range` it is
 answered with (RFC 9110, sections 14.1.2 and 14.4).
 */
module HttpRange {
  import opened Wrappers
  import opened Bytes
  import opened Decimals

  /** The two ends of a `bytes=` range as written; either may be empty. */
  function ParseRange(header: string): Option<(string, string)> {
    var text := Strip(header);
    if !("bytes=" <= text) then None
    else
      var rest := text[6..];
      var first := DigitRun(rest);
      if first < |rest| && rest[first] == '-' && AllDigits(rest[first + 1..])
      then Some((rest[..first], rest[first + 1..])) else None
  }

  /** `_start_of`: where a range starts, and its END part. */
  function StartOf(header: Option<string>): (nat, string) {
    match ParseRange(header.GetOr(""))
    case None => (0, "")
    case Some((first, last)) =>
      if |first| == 0 then (0, "")
      else
        assert AllDigits(first) by { RangeEndsAreDigits(header.GetOr("")); }
        (Value(first), last)
  }

  lemma {:induction false} RangeEndsAreDigits(header: string)
    requires ParseRange(header).Some?
    ensures AllDigits(ParseRange(header).value.0) && AllDigits(ParseRange(header).value.1)
  {
  }

  /** The header is the text of a range with these ends, as section 14.1.2 has it but for its missing both. */
  predicate Asks(header: string, first: string, last: string) {
    AllDigits(first) && AllDigits(last) && Strip(header) == "bytes=" + (first + (['-'] + last))
  }

  /** The text of a range is what is read for one, and nothing else is. */
  lemma {:induction false} RangeIff(header: string, first: string, last: string)
    ensures ParseRange(header) == Some((first, last)) <==> Asks(header, first, last)
  {
    var text := Strip(header);
    if Asks(header, first, last) {
      var rest := first + (['-'] + last);
      assert text[6..] == rest;
      DigitRunOf(first, ['-'] + last);
      assert rest[|first| + 1..] == last;
    }
    if ParseRange(header) == Some((first, last)) {
      RangeEndsAreDigits(header);
      var rest := text[6..];
      assert rest == first + (['-'] + last);
      assert text == "bytes=" + rest;
    }
  }

  /** The three groups of `START-END/TOTAL`. */
  function ParseSpan(rest: string): (r: Option<(string, string, string)>)
    ensures r.Some? ==> AllDigits(r.value.0) && AllDigits(r.value.1) && (r.value.2 == "*" || AllDigits(r.value.2))
  {
    var first := DigitRun(rest);
    if first == 0 || first == |rest| || rest[first] != '-' then None
    else
      var tail := rest[first + 1..];
      var last := DigitRun(tail);
      if last == 0 || last == |tail| || tail[last] != '/' then None
      else
        var total := tail[last + 1..];
        if total == "*" || (|total| > 0 && AllDigits(total)) then Some((rest[..first], tail[..last], total)) else None
  }

  function ParseContentRange(header: string): (r: Option<(string, string, string)>)
    ensures r.Some? ==> AllDigits(r.value.0) && AllDigits(r.value.1) && (r.value.2 == "*" || AllDigits(r.value.2))
  {
    var text := Strip(header);
    if "bytes " <= text then ParseSpan(text[6..]) else None
  }

  /** Where a body lies in its file. */
  datatype Span = Span(start: nat, length: nat)

  /** `_range_length`: start and length of a content range, when it is in order. */
  function RangeLength(header: string): (r: Option<Span>)
    ensures r.Some? ==> r.value.length > 0
  {
    match ParseContentRange(header)
    case None => None
    case Some((first, last, total)) =>
      var start, end := Value(first), Value(last);
      if end < start || (total != "*" && end >= Value(total)) then None else Some(Span(start, end - start + 1))
  }

  function RangeText(first: string, last: string, total: string): string {
    "bytes " + (first + (['-'] + (last + (['/'] + total))))
  }

  predicate Numeral(s: string) { |s| > 0 && AllDigits(s) }

  /** The length of the whole file, or that it is not known. */
  predicate Total(s: string) { s == "*" || Numeral(s) }

  lemma {:induction false} RangeTextStripped(first: string, last: string, total: string)
    requires Total(total)
    ensures Strip(RangeText(first, last, total)) == RangeText(first, last, total)
  {
    var text := RangeText(first, last, total);
    assert text[|text| - 1] == total[|total| - 1];
    StripNothing(text);
  }

  /** The text of a span falls into the parts it was put together from. */
  lemma {:induction false} SpanParts(first: string, last: string, total: string)
    requires Numeral(first) && Numeral(last) && Total(total)
    ensures ParseSpan(first + (['-'] + (last + (['/'] + total)))) == Some((first, last, total))
  {
    var tail := last + (['/'] + total);
    var rest := first + (['-'] + tail);
    DigitRunOf(first, ['-'] + tail);
    assert rest[|first|] == '-' && rest[|first| + 1..] == tail;
    DigitRunOf(last, ['/'] + total);
    assert tail[|last|] == '/' && tail[|last| + 1..] == total;
    assert ParseSpan(rest) == if total == "*" || (|total| > 0 && AllDigits(total)) then Some((first, last, total)) else None;
  }

  /** And nothing else does. */
  lemma {:induction false} PartsSpan(rest: string)
    requires ParseSpan(rest).Some?
    ensures var (first, last, total) := ParseSpan(rest).value;
      Numeral(first) && Numeral(last) && Total(total) && rest == first + (['-'] + (last + (['/'] + total)))
  {
    var first := DigitRun(rest);
    var tail := rest[first + 1..];
    var last := DigitRun(tail);
    assert rest == rest[..first] + (['-'] + tail);
    assert tail == tail[..last] + (['/'] + tail[last + 1..]);
  }

  /** The header is the text of these parts, as section 14.4 has it. */
  predicate Written(header: string, first: string, last: string, total: string) {
    Numeral(first) && Numeral(last) && Total(total) && Strip(header) == RangeText(first, last, total)
  }

  /** The text of a content range is what is read for one. */
  lemma {:induction false} ContentRangeIff(header: string, first: string, last: string, total: string)
    ensures ParseContentRange(header) == Some((first, last, total))
      <==> Written(header, first, last, total)
  {
    var text := Strip(header);
    if ParseContentRange(header) == Some((first, last, total)) {
      PartsSpan(text[6..]);
      assert text == "bytes " + text[6..];
    }
    if Numeral(first) && Numeral(last) && Total(total) && text == RangeText(first, last, total) {
      SpanParts(first, last, total);
      assert text[6..] == first + (['-'] + (last + (['/'] + total)));
    }
  }

  /** Where `start..end` lies in a file, if it does; without a size it may be of any length. */
  function SpanOf(start: nat, end: nat, size: Option<nat>): Option<Span> {
    if start <= end && (size.Some? ==> end < size.value) then Some(Span(start, end - start + 1)) else None
  }

  function Size(total: string): Option<nat>
    requires Total(total)
  {
    if total == "*" then None else Some(Value(total))
  }

  lemma {:induction false} PartsLength(header: string, first: string, last: string, total: string)
    requires Numeral(first) && Numeral(last) && Total(total)
    requires ParseContentRange(header) == Some((first, last, total))
    ensures RangeLength(header) == SpanOf(Value(first), Value(last), Size(total))
  {
  }

  /** What the relay accepts is exactly a content range, in order. */
  lemma {:induction false} RangeLengthIff(header: string, span: Span)
    ensures RangeLength(header) == Some(span)
      <==> exists first, last, total ::
             Written(header, first, last, total) && SpanOf(Value(first), Value(last), Size(total)) == Some(span)
  {
    if ParseContentRange(header).Some? {
      var (first, last, total) := ParseContentRange(header).value;
      ContentRangeIff(header, first, last, total);
      PartsLength(header, first, last, total);
    }
    forall first, last, total | Written(header, first, last, total)
      ensures ParseContentRange(header) == Some((first, last, total))
    {
      ContentRangeIff(header, first, last, total);
    }
  }

  function ContentRange(start: nat, end: nat, size: Option<nat>): string {
    RangeText(Digits(start), Digits(end), if size.Some? then Digits(size.value) else "*")
  }

  /** A written content range reads back as where it starts and how long it is, if it is in order. */
  lemma {:induction false} ContentRangeReadsBack(start: nat, end: nat, size: Option<nat>)
    ensures RangeLength(ContentRange(start, end, size)) == SpanOf(start, end, size)
  {
    var total := if size.Some? then Digits(size.value) else "*";
    DigitsReadBack(start);
    DigitsReadBack(end);
    if size.Some? { DigitsReadBack(size.value); }
    RangeTextStripped(Digits(start), Digits(end), total);
    ContentRangeIff(ContentRange(start, end, size), Digits(start), Digits(end), total);
    PartsLength(ContentRange(start, end, size), Digits(start), Digits(end), total);
    assert size.Some? ==> IsDigit(total[0]);
    assert Size(total) == size;
  }

  // ------------------------------------------------------------ a local file

  datatype FileReply = Whole(length: nat) | Part(start: nat, end: nat, length: nat) | Refused

  /**
   Which bytes of a file of `size` bytes a range selects, position by position, as section 14.1.2 has it:
   those from its first on, up to its last if it has one, or as many of the end as it says.  With neither
   it is no range.
   */
  predicate Selected(ends: (string, string), size: nat, k: nat)
    requires AllDigits(ends.0) && AllDigits(ends.1)
  {
    k < size &&
    if |ends.0| > 0 then Value(ends.0) <= k && (|ends.1| > 0 ==> k <= Value(ends.1))
    else |ends.1| > 0 && size - Value(ends.1) <= k
  }

  function SpanStart(ends: (string, string), size: nat): nat
    requires AllDigits(ends.0) && AllDigits(ends.1)
  {
    if |ends.0| > 0 then Value(ends.0)
    else if |ends.1| > 0 && size >= Value(ends.1) then size - Value(ends.1)
    else 0
  }

  function SpanEnd(ends: (string, string), size: nat): int
    requires AllDigits(ends.0) && AllDigits(ends.1)
  {
    if |ends.0| > 0 && |ends.1| > 0 && Value(ends.1) < size - 1 then Value(ends.1) else size - 1
  }

  lemma {:induction false} SpanAnswers(ends: (string, string), size: nat)
    requires AllDigits(ends.0) && AllDigits(ends.1) && ends != ([], [])
    ensures var start, end := SpanStart(ends, size), SpanEnd(ends, size);
      AnswersRange(if start >= size || start > end then Refused else Part(start, end, end - start + 1), ends, size)
  {
    var start, end := SpanStart(ends, size), SpanEnd(ends, size);
    assert forall k: nat :: start <= k <= end <==> Selected(ends, size, k);
    if start < size && start <= end {
      assert Selected(ends, size, start);
    }
  }

  /**
   The part of `_relay_file` from the two groups of the range on: it answers as the section has it exactly
   if there is an end or the file is empty, and otherwise with all of the file as a part.
   */
  method AnswerRange(size: nat, ends: (string, string)) returns (reply: FileReply)
    requires AllDigits(ends.0) && AllDigits(ends.1)
    ensures AnswersRange(reply, ends, size) <==> ends != ([], []) || size == 0
    ensures ends == ([], []) && size > 0 ==> reply == Part(0, size - 1, size)
  {
    var (first, last) := ends;
    var start, end: int := 0, size - 1;
    if |first| > 0 {
      start := Value(first);
      if |last| > 0 { end := if Value(last) < size - 1 then Value(last) else size - 1; }
    } else if |last| > 0 {
      start := if size >= Value(last) then size - Value(last) else 0;
    }
    assert start == SpanStart(ends, size) && end == SpanEnd(ends, size);
    if ends != ([], []) { SpanAnswers(ends, size); }
    if start >= size || start > end { return Refused; }
    return Part(start, end, end - start + 1);
  }

  /** `_relay_file`: what part of a file of `size` bytes is answered. */
  method RelayFile(size: nat, header: Option<string>) returns (reply: FileReply)
    ensures (header.None? || |header.value| == 0) ==> reply == Whole(size)
    ensures header.Some? && |header.value| > 0 && ParseRange(header.value).None? ==> reply == Refused
    ensures header.Some? && |header.value| > 0 && ParseRange(header.value).Some? ==>
      var ends := ParseRange(header.value).value;
      && (AnswersRange(reply, ends, size) <==> ends != ([], []) || size == 0)
      && (ends == ([], []) && size > 0 ==> reply == Part(0, size - 1, size))
  {
    if header.None? || |header.value| == 0 { return Whole(size); }
    var parts := ParseRange(header.value);
    if parts.None? { return Refused; }
    RangeEndsAreDigits(header.value);
    reply := AnswerRange(size, parts.value);
  }

  /** The header that says neither end, of which the section knows nothing, is read as one. */
  lemma {:induction false} NeitherEndIsRead(size: nat)
    ensures ParseRange("bytes=-") == Some(([], [])) && forall k: nat :: !Selected(([], []), size, k)
  {
    var text := "bytes=-";
    StripNothing(text);
    assert text[6..] == "-" && DigitRun("-") == 0 && "-"[1..] == [] && "-"[..0] == [];
  }

  /**
   The reply carries exactly the selected bytes; it refuses exactly a range that selects none.
   */
  ghost predicate AnswersRange(reply: FileReply, ends: (string, string), size: nat) {
    && AllDigits(ends.0) && AllDigits(ends.1) && !reply.Whole?
    && (reply == Refused <==> forall k: nat :: !Selected(ends, size, k))
    && (reply.Part? ==>
          && reply.start <= reply.end < size && reply.length == reply.end - reply.start + 1
          && (forall k: nat :: reply.start <= k < reply.start + reply.length <==> Selected(ends, size, k)))
  }

  function Joined(blocks: seq<seq<byte>>): seq<byte> {
    if blocks == [] then [] else Joined(blocks[..|blocks| - 1]) + blocks[|blocks| - 1]
  }

  lemma {:induction false} SlicesJoin(content: seq<byte>, a: nat, b: nat, c: nat)
    requires a <= b <= c <= |content|
    ensures content[a..b] + content[b..c] == content[a..c]
  {
  }

  lemma {:induction false} JoinedAppend(blocks: seq<seq<byte>>, block: seq<byte>)
    ensures Joined(blocks + [block]) == Joined(blocks) + block
  {
    assert (blocks + [block])[..|blocks|] == blocks;
  }

  const CHUNK_BYTES: nat := 256 * 1024

  /** The file's bytes from `start`, `length` of them or as many as the file still has, block by block. */
  method FileChunks(content: seq<byte>, start: nat, length: nat) returns (blocks: seq<seq<byte>>)
    requires start <= |content|
    ensures Joined(blocks) == content[start..if start + length <= |content| then start + length else |content|]
    ensures forall i :: 0 <= i < |blocks| ==> 0 < |blocks[i]| <= CHUNK_BYTES
  {
    blocks := [];
    var at, remaining := start, length;
    while remaining > 0
      invariant start <= at <= |content| && remaining >= 0 && at + remaining == start + length
      invariant Joined(blocks) == content[start..at]
      invariant forall i :: 0 <= i < |blocks| ==> 0 < |blocks[i]| <= CHUNK_BYTES
      decreases remaining
    {
      var wanted := if CHUNK_BYTES < remaining then CHUNK_BYTES else remaining;
      var end := if at + wanted <= |content| then at + wanted else |content|;
      var block := content[at..end];
      if block == [] {
        assert at == |content|;
        return;
      }
      JoinedAppend(blocks, block);
      SlicesJoin(content, start, at, end);
      blocks, at, remaining := blocks + [block], end, remaining - |block|;
    }
    assert at == start + length;
  }
}

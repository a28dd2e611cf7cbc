/**
 The watched field of media/stremio/watched.py: which episodes of a list are watched, as bits in a byte
 buffer, and as the account's string, realigned to whatever the list has become since.
 */
module Watched {
  import opened Wrappers
  import opened Bytes
  import opened Decimals

  // ---------------------------------------------------------------- the bits

  /** The byte with bit `k` alone. */
  function Mask(k: nat): byte {
    if k == 0 then 1 else if k == 1 then 2 else if k == 2 then 4 else if k == 3 then 8
    else if k == 4 then 16 else if k == 5 then 32 else if k == 6 then 64 else if k == 7 then 128 else 0
  }

  predicate BitOf(b: byte, k: nat) { b & Mask(k) != 0 }

  function WithBit(b: byte, k: nat, on: bool): byte { if on then b | Mask(k) else b & !Mask(k) }

  lemma {:induction false} ShiftedOne(k: nat)
    requires k < 8
    ensures (1 as byte) << k == Mask(k)
  {
    assert k == 0 || k == 1 || k == 2 || k == 3 || k == 4 || k == 5 || k == 6 || k == 7;
  }

  /** The byte with the bit `1 << bit` in it, or taken out of it. */
  method WithShiftedOne(b: byte, k: nat, on: bool) returns (changed: byte)
    requires k < 8
    ensures changed == WithBit(b, k, on)
  {
    hide Mask;
    var mask: byte := 1 << k;
    ShiftedOne(k);
    changed := if on then b | mask else b & !mask;
  }

  /** `(byte >> bit) & 1`. */
  method LowestShifted(b: byte, k: nat) returns (on: bool)
    requires k < 8
    ensures on == BitOf(b, k)
  {
    on := (b >> k) & 1 == 1;
    assert k == 0 || k == 1 || k == 2 || k == 3 || k == 4 || k == 5 || k == 6 || k == 7;
  }

  lemma {:induction false} MasksApart(j: nat, k: nat)
    requires j < 8 && k < 8
    ensures Mask(k) != 0 && (j != k ==> Mask(j) & Mask(k) == 0)
  {
  }

  lemma {:induction false} MaskedApart(b: byte, x: byte, y: byte)
    ensures (b | x) & x == x && (b & !x) & x == 0
    ensures x & y == 0 ==> (b | x) & y == b & y && (b & !x) & y == b & y
  {
  }

  lemma {:induction false} WithBitBits(b: byte, k: nat, on: bool, j: nat)
    requires k < 8 && j < 8
    ensures BitOf(WithBit(b, k, on), j) == if j == k then on else BitOf(b, j)
  {
    MasksApart(k, j);
    MaskedApart(b, Mask(k), Mask(j));
  }

  function Power2(k: nat): (power: nat)
    ensures power > 0
  {
    if k == 0 then 1 else 2 * Power2(k - 1)
  }

  lemma {:induction false} Halved(b: byte)
    ensures (b >> 1) as int == b as int / 2
    ensures b & 1 == 1 <==> b as int % 2 == 1
  {
  }

  lemma {:induction false} ShiftedBit(b: byte, k: nat)
    requires k < 8
    ensures (b >> k) & 1 == 1 <==> BitOf(b, k)
  {
    assert k == 0 || k == 1 || k == 2 || k == 3 || k == 4 || k == 5 || k == 6 || k == 7;
  }

  lemma {:induction false} ShiftedOn(b: byte, k: nat)
    requires k < 7
    ensures b >> (k + 1) == (b >> k) >> 1
  {
    assert k == 0 || k == 1 || k == 2 || k == 3 || k == 4 || k == 5 || k == 6;
  }

  lemma {:induction false} HalvedAgain(n: nat, m: nat)
    requires m > 0
    ensures n / m / 2 == n / (2 * m)
  {
    var q, r := n / m, n % m;
    assert n == q * m + r;
    assert q == 2 * (q / 2) + q % 2;
    assert n == (q / 2) * (2 * m) + ((q % 2) * m + r);
    assert 0 <= (q % 2) * m + r < 2 * m;
    DivisionIs(n, 2 * m, q / 2, (q % 2) * m + r);
  }

  lemma {:induction false} DivisionIs(n: nat, m: nat, q: nat, r: nat)
    requires m > 0 && r < m && n == q * m + r
    ensures n / m == q
  {
    var d := n / m;
    assert (q - d) * m == n % m - r;
    if d < q { AtLeastOnce(q - d, m); }
    if d > q {
      assert (d - q) * m == r - n % m;
      AtLeastOnce(d - q, m);
    }
  }

  lemma {:induction false} AtLeastOnce(k: nat, m: nat)
    requires k > 0
    ensures k * m >= m
  {
  }

  lemma {:induction false} ShiftHalves(b: byte, k: nat)
    requires k < 8
    ensures (b >> k) as int == b as int / Power2(k)
  {
    if k > 0 {
      ShiftHalves(b, k - 1);
      ShiftedOn(b, k - 1);
      Halved(b >> (k - 1));
      HalvedAgain(b as int, Power2(k - 1));
    }
  }

  /** The bit of position `i` is that of 2 to the `i % 8` in the number that byte `i / 8` is. */
  lemma {:induction false} BitIsPower(values: seq<byte>, i: nat)
    ensures Get(values, i) <==> i / 8 < |values| && values[i / 8] as int / Power2(i % 8) % 2 == 1
  {
    if i / 8 < |values| {
      ShiftedBit(values[i / 8], i % 8);
      ShiftHalves(values[i / 8], i % 8);
      Halved(values[i / 8] >> (i % 8));
    }
  }

  function BytesFor(n: nat): nat { (n + 7) / 8 }

  /** Bit `i` of a buffer; everything past its end is unset. */
  predicate Get(values: seq<byte>, i: nat) {
    i / 8 < |values| && BitOf(values[i / 8], i % 8)
  }

  function Zeros(n: nat): seq<byte> { seq(n, _ => 0 as byte) }

  /** `set`: the buffer grows to hold the bit. */
  function Set(values: seq<byte>, i: nat, on: bool): seq<byte> {
    var grown := if i / 8 < |values| then values else values + Zeros(i / 8 - |values| + 1);
    grown[i / 8 := WithBit(grown[i / 8], i % 8, on)]
  }

  lemma {:induction false} ZeroBit(k: nat)
    ensures !BitOf(0, k)
  {
    MaskedApart(0, Mask(k), Mask(k));
  }

  lemma {:induction false} ZerosUnset(n: nat, j: nat)
    ensures !Get(Zeros(n), j)
  {
    ZeroBit(j % 8);
  }

  /** Setting one bit sets it and no other. */
  lemma {:induction false} SetGet(values: seq<byte>, i: nat, on: bool, j: nat)
    ensures Get(Set(values, i, on), j) == if j == i then on else Get(values, j)
  {
    var grown := if i / 8 < |values| then values else values + Zeros(i / 8 - |values| + 1);
    ZeroBit(j % 8);
    assert Get(grown, j) == Get(values, j);
    if j / 8 == i / 8 {
      WithBitBits(grown[i / 8], i % 8, on, j % 8);
      assert j % 8 == i % 8 <==> j == i;
    }
  }

  // -------------------------------------------------------------- the string

  /** zlib and base64, as one pair of functions. */
  datatype Codec = Codec(pack: seq<byte> -> string, unpack: string -> Option<seq<byte>>) {
    /** What is packed unpacks to itself, and never holds the separator. */
    ghost predicate Lossless() {
      forall values :: unpack(pack(values)) == Some(values) && ':' !in pack(values)
    }
  }

  /** The text before and after the last colon. */
  function CutAtLast(s: string): Option<(string, string)> {
    if s == [] then None
    else
      var last := |s| - 1;
      if s[last] == ':' then Some((s[..last], []))
      else match CutAtLast(s[..last]) case None => None case Some((head, tail)) => Some((head, tail + [s[last]]))
  }

  lemma {:induction false} CutsAtTheLast(head: string, tail: string)
    requires ':' !in tail
    ensures CutAtLast(head + ([':'] + tail)) == Some((head, tail))
    decreases |tail|
  {
    var s := head + ([':'] + tail);
    if tail == [] {
      assert s[..|s| - 1] == head;
    } else {
      var n := |tail| - 1;
      CutsAtTheLast(head, tail[..n]);
      assert s[..|s| - 1] == head + ([':'] + tail[..n]);
      assert tail[..n] + [tail[n]] == tail;
    }
  }

  function Blank(ids: seq<string>): seq<byte> { Zeros(BytesFor(|ids|)) }

  /** A new buffer has as many bytes as hold the list, and no more. */
  lemma {:induction false} BlankFits(ids: seq<string>)
    ensures 8 * |Blank(ids)| >= |ids| && (ids != [] ==> 8 * (|Blank(ids)| - 1) < |ids|)
    ensures forall i: nat :: !Get(Blank(ids), i)
  {
    forall i: nat ensures !Get(Blank(ids), i) { ZerosUnset(BytesFor(|ids|), i); }
  }

  /** The first position of an id that is in the list. */
  function IndexOf(ids: seq<string>, id: string): (i: nat)
    requires id in ids
    ensures i < |ids| && ids[i] == id && forall j :: 0 <= j < i ==> ids[j] != id
  {
    if ids[0] == id then 0 else 1 + IndexOf(ids[1..], id)
  }

  /** The stored bits moved by `offset` onto the first `k` positions of a list of `n`. */
  function Moved(stored: seq<byte>, offset: int, n: nat, k: nat): seq<byte> {
    if k == 0 then Zeros(BytesFor(n))
    else
      var before := Moved(stored, offset, n, k - 1);
      var previous := k - 1 + offset;
      if 0 <= previous < |stored| * 8 then Set(before, k - 1, Get(stored, previous)) else before
  }

  function Extended(stored: seq<byte>, n: nat): seq<byte> {
    if |stored| < BytesFor(n) then stored + Zeros(BytesFor(n) - |stored|) else stored
  }

  function Realigned(stored: seq<byte>, offset: int, n: nat): seq<byte> {
    if offset == 0 then Extended(stored, n) else Moved(stored, offset, n, n)
  }

  /** What the account's string says, taken apart: anchor, anchor length, bits. */
  function TakenApart(serialized: string, codec: Codec): Option<(string, int, seq<byte>)> {
    match CutAtLast(serialized)
    case None => None
    case Some((front, encoded)) =>
      match CutAtLast(front)
      case None => None
      case Some((anchor, number)) =>
        match (ParseInt(number), codec.unpack(encoded))
        case (Some(length), Some(values)) => Some((anchor, length, values))
        case _ => None
  }

  /** `parse`: the account's field realigned to `ids`; nothing watched if it cannot be read. */
  function Parse(serialized: Option<string>, ids: seq<string>, codec: Codec): seq<byte> {
    match serialized
    case None => Blank(ids)
    case Some(text) =>
      match TakenApart(text, codec)
      case None => Blank(ids)
      case Some((anchor, length, values)) =>
        if anchor !in ids then Blank(ids)
        else Realigned(values, length - IndexOf(ids, anchor) - 1, |ids|)
  }

  /** The last marked position below `n`, or 0 when there is none. */
  function LastMarked(values: seq<byte>, n: nat): (last: nat)
    ensures last < n || last == n == 0
    ensures forall i :: last < i < n ==> !Get(values, i)
    ensures Get(values, last) || forall i :: 0 <= i < n ==> !Get(values, i)
    ensures Get(values, last) || last == 0
  {
    if n == 0 then 0 else if Get(values, n - 1) then n - 1 else LastMarked(values, n - 1)
  }

  /** The text of a field: anchor, its place and the bits, whatever the anchor's id holds. */
  function FieldText(anchor: string, place: nat, values: seq<byte>, codec: Codec): string {
    anchor + ([':'] + Digits(place)) + ([':'] + codec.pack(values))
  }

  function Serialize(values: seq<byte>, ids: seq<string>, codec: Codec): string {
    var last := LastMarked(values, |ids|);
    var anchor := if last < |ids| then ids[last] else "undefined";
    FieldText(anchor, last + 1, values, codec)
  }

  // ---------------------------------------------------- what realigning does

  lemma {:induction false} PastTheEnd(values: seq<byte>, i: nat)
    requires i >= |values| * 8
    ensures !Get(values, i)
  {
  }

  /** The stored bit of a position that may lie before the buffer. */
  predicate Come(stored: seq<byte>, from: int) { from >= 0 && Get(stored, from) }

  /** One more position: its bit comes with it, the others stay. */
  lemma {:induction false} StepGet(before: seq<byte>, stored: seq<byte>, k: nat, from: int, i: nat)
    requires !Get(before, k)
    ensures Get(if 0 <= from < |stored| * 8 then Set(before, k, Get(stored, from)) else before, i)
         == if i == k then Come(stored, from) else Get(before, i)
  {
    hide BitOf, WithBit;
    if 0 <= from < |stored| * 8 {
      SetGet(before, k, Get(stored, from), i);
    } else if from >= 0 {
      PastTheEnd(stored, from);
    }
  }

  lemma {:induction false} MovedStep(stored: seq<byte>, offset: int, n: nat, k: nat, i: nat)
    requires !Get(Moved(stored, offset, n, k), k)
    requires Get(Moved(stored, offset, n, k), i) == (i < k && Come(stored, i + offset))
    ensures Get(Moved(stored, offset, n, k + 1), i) == (i < k + 1 && Come(stored, i + offset))
  {
    hide BitOf, WithBit;
    StepGet(Moved(stored, offset, n, k), stored, k, k + offset, i);
  }

  lemma {:induction false} NothingMoved(stored: seq<byte>, offset: int, n: nat, i: nat)
    ensures !Get(Moved(stored, offset, n, 0), i)
  {
    ZerosUnset(BytesFor(n), i);
  }

  lemma {:induction false} MovedGet(stored: seq<byte>, offset: int, n: nat, k: nat, i: nat)
    ensures Get(Moved(stored, offset, n, k), i) == (i < k && Come(stored, i + offset))
  {
    hide *;
    if k == 0 {
      NothingMoved(stored, offset, n, i);
    } else {
      MovedGet(stored, offset, n, k - 1, k - 1);
      MovedGet(stored, offset, n, k - 1, i);
      MovedStep(stored, offset, n, k - 1, i);
    }
  }

  lemma {:induction false} RealignedGet(stored: seq<byte>, offset: int, n: nat, i: nat)
    requires i < n
    ensures Get(Realigned(stored, offset, n), i) == (i + offset >= 0 && Get(stored, i + offset))
  {
    if offset == 0 { ZeroBit(i % 8); } else { MovedGet(stored, offset, n, n, i); }
  }

  /**
   What any such text says of a list, whoever wrote it: nothing unless the list has the anchor; and then each
   position has the bit as far from the one in its place as it is from the anchor's first position here.
   Places are counted from 1.
   */
  lemma {:induction false} TextSays(anchor: string, place: nat, values: seq<byte>, codec: Codec, ids: seq<string>, i: nat)
    requires codec.Lossless() && i < |ids|
    ensures Get(Parse(Some(FieldText(anchor, place, values, codec)), ids, codec), i)
      <==> anchor in ids && (var from := place - 1 + (i - IndexOf(ids, anchor)); from >= 0 && Get(values, from))
  {
    hide *;
    TextFollows(anchor, place, values, codec, ids);
    FollowsGet(values, place - 1, anchor, ids, i);
  }

  lemma {:induction false} TextFollows(anchor: string, place: nat, values: seq<byte>, codec: Codec, ids: seq<string>)
    requires codec.Lossless()
    ensures Parse(Some(FieldText(anchor, place, values, codec)), ids, codec) == Follows(values, place - 1, anchor, ids)
  {
    hide BitOf, Set, Moved, FieldText;
    TextParts(anchor, place, values, codec);
  }

  lemma {:induction false} TextParts(anchor: string, place: nat, values: seq<byte>, codec: Codec)
    requires codec.Lossless()
    ensures TakenApart(FieldText(anchor, place, values, codec), codec) == Some((anchor, place, values))
  {
    var number := Digits(place);
    DigitsReadBack(place);
    NumeralParses(number);
    CutsAtTheLast(anchor + ([':'] + number), codec.pack(values));
    assert forall c :: c in number ==> IsDigit(c);
    CutsAtTheLast(anchor, number);
  }

  /** A serialized field comes apart into what it was made of, whatever its anchor's id holds. */
  lemma {:induction false} SerializedParts(values: seq<byte>, ids: seq<string>, codec: Codec)
    requires codec.Lossless() && |ids| > 0
    ensures var last := LastMarked(values, |ids|);
      TakenApart(Serialize(values, ids, codec), codec) == Some((ids[last], last + 1, values))
  {
    var last := LastMarked(values, |ids|);
    TextParts(ids[last], last + 1, values, codec);
  }

  /** Against any list that has the anchor, the bits move with it; against others they are gone. */
  function Follows(values: seq<byte>, last: int, anchor: string, now: seq<string>): seq<byte> {
    if anchor !in now then Blank(now) else Realigned(values, last - IndexOf(now, anchor), |now|)
  }

  lemma {:induction false} FollowsGet(values: seq<byte>, last: int, anchor: string, now: seq<string>, i: nat)
    requires i < |now|
    ensures Get(Follows(values, last, anchor, now), i)
         == (anchor in now && (var from := i + last - IndexOf(now, anchor); from >= 0 && Get(values, from)))
  {
    hide BitOf, WithBit;
    if anchor in now { RealignedGet(values, last - IndexOf(now, anchor), |now|, i); } else { ZerosUnset(BytesFor(|now|), i); }
  }

  lemma {:induction false} ParseFollows(values: seq<byte>, ids: seq<string>, codec: Codec, now: seq<string>)
    requires codec.Lossless() && |ids| > 0
    ensures var last := LastMarked(values, |ids|);
      Parse(Some(Serialize(values, ids, codec)), now, codec) == Follows(values, last, ids[last], now)
  {
    hide BitOf, Set, Moved;
    SerializedParts(values, ids, codec);
  }

  lemma {:induction false} ParsesMoved(values: seq<byte>, ids: seq<string>, codec: Codec, now: seq<string>, i: nat)
    requires codec.Lossless() && |ids| > 0 && i < |now|
    ensures var anchor := ids[LastMarked(values, |ids|)];
      Get(Parse(Some(Serialize(values, ids, codec)), now, codec), i)
      == (anchor in now
          && (var from := i + LastMarked(values, |ids|) - IndexOf(now, anchor); from >= 0 && Get(values, from)))
  {
    hide BitOf, Set, Moved;
    ParseFollows(values, ids, codec, now);
    FollowsGet(values, LastMarked(values, |ids|), ids[LastMarked(values, |ids|)], now, i);
  }

  /** The two fields mark the same positions of a list of `n`. */
  ghost predicate SameMarks(a: seq<byte>, b: seq<byte>, n: nat) {
    forall i :: 0 <= i < n ==> (Get(a, i) <==> Get(b, i))
  }

  /** No bit is set at or past position `from`, up to `to`. */
  ghost predicate NoStray(values: seq<byte>, from: nat, to: nat) {
    forall i :: from <= i < to ==> !Get(values, i)
  }

  /** The marks are the same `shift` places further on, into bits past the list where it comes to them. */
  ghost predicate Repeats(values: seq<byte>, n: nat, shift: nat) {
    forall i: nat :: i < n ==> RepeatsAt(values, i, shift)
  }

  predicate RepeatsAt(values: seq<byte>, i: nat, shift: nat) { Get(values, i) <==> Get(values, i + shift) }

  /**
   Stored and read back against the same list, a field marks what it marked exactly when its marks repeat as
   far on as the last marked episode's id occurs before that episode.  Without bits past the list they do so
   only when that id does not occur earlier at all.
   */
  lemma {:induction false} RoundTripIff(values: seq<byte>, ids: seq<string>, codec: Codec)
    requires codec.Lossless() && |ids| > 0
    ensures var last := LastMarked(values, |ids|);
      && IndexOf(ids, ids[last]) <= last
      && (SameMarks(Parse(Some(Serialize(values, ids, codec)), ids, codec), values, |ids|)
          <==> Repeats(values, |ids|, last - IndexOf(ids, ids[last])))
      && (NoStray(values, |ids|, 2 * |ids|) ==>
            (SameMarks(Parse(Some(Serialize(values, ids, codec)), ids, codec), values, |ids|)
             <==> IndexOf(ids, ids[last]) == last))
  {
    hide *;
    ReadsShifted(values, ids, codec);
    var last := LastMarked(values, |ids|);
    ShiftedMarks(values, Parse(Some(Serialize(values, ids, codec)), ids, codec), |ids|,
                 last - IndexOf(ids, ids[last]), last);
  }

  lemma {:induction false} ReadsShifted(values: seq<byte>, ids: seq<string>, codec: Codec)
    requires codec.Lossless() && |ids| > 0
    ensures var last := LastMarked(values, |ids|);
      && IndexOf(ids, ids[last]) <= last
      && forall i: nat :: i < |ids| ==>
           Get(Parse(Some(Serialize(values, ids, codec)), ids, codec), i)
           == Get(values, i + (last - IndexOf(ids, ids[last])))
  {
    hide BitOf, Set, Moved;
    var last := LastMarked(values, |ids|);
    assert last - IndexOf(ids, ids[last]) >= 0;
    forall i: nat | i < |ids|
      ensures Get(Parse(Some(Serialize(values, ids, codec)), ids, codec), i)
           == Get(values, i + (last - IndexOf(ids, ids[last])))
    {
      ParsesMoved(values, ids, codec, ids, i);
    }
  }

  /** Marks read from further on are the same exactly if they repeat there, or without stray bits if read where they are. */
  lemma {:induction false} ShiftedMarks(values: seq<byte>, back: seq<byte>, n: nat, shift: nat, last: nat)
    requires shift <= last < n && (Get(values, last) || last == 0)
    requires forall i: nat :: last < i < n ==> !Get(values, i)
    requires forall i: nat :: i < n ==> Get(back, i) == Get(values, i + shift)
    ensures SameMarks(back, values, n) <==> Repeats(values, n, shift)
    ensures NoStray(values, n, 2 * n) ==> (SameMarks(back, values, n) <==> shift == 0)
  {
    hide Get;
    forall i: nat | i < n ensures RepeatsAt(values, i, shift) <==> (Get(back, i) <==> Get(values, i)) {
      assert Get(back, i) == Get(values, i + shift);
    }
    if NoStray(values, n, 2 * n) && shift > 0 {
      assert Get(back, last) == Get(values, last + shift);
      assert !Get(values, last + shift);
    }
  }

  ghost predicate Distinct(ids: seq<string>) { forall i, j :: 0 <= i < j < |ids| ==> ids[i] != ids[j] }

  /** With distinct ids the round trip is exact, stray bits or not. */
  lemma {:induction false} RoundTrip(values: seq<byte>, ids: seq<string>, codec: Codec)
    requires codec.Lossless() && |ids| > 0 && Distinct(ids)
    ensures SameMarks(Parse(Some(Serialize(values, ids, codec)), ids, codec), values, |ids|)
  {
    hide BitOf, Set, Moved;
    forall i | 0 <= i < |ids|
      ensures Get(Parse(Some(Serialize(values, ids, codec)), ids, codec), i) == Get(values, i)
    {
      ParsesMoved(values, ids, codec, ids, i);
    }
  }

  /**
   Episodes added in front and behind leave every mark on its episode, exactly when the buffer has no
   stray bit where the ones behind come to lie.
   */
  lemma {:induction false} RealignmentIff(values: seq<byte>, front: seq<string>, ids: seq<string>, back: seq<string>,
                                          codec: Codec)
    requires codec.Lossless() && |ids| > 0 && Distinct(front + ids + back)
    ensures var now := front + ids + back;
      var parsed := Parse(Some(Serialize(values, ids, codec)), now, codec);
      (forall i :: 0 <= i < |now| ==>
         (Get(parsed, i) <==> |front| <= i < |front| + |ids| && Get(values, i - |front|)))
      <==> NoStray(values, |ids|, |ids| + |back|)
  {
    hide BitOf, Set, Moved;
    var now := front + ids + back;
    var last := LastMarked(values, |ids|);
    assert now[|front| + last] == ids[last];
    assert IndexOf(now, ids[last]) == |front| + last;
    var parsed := Parse(Some(Serialize(values, ids, codec)), now, codec);
    forall i | 0 <= i < |now| ensures Get(parsed, i) == (i >= |front| && Get(values, i - |front|)) {
      ParsesMoved(values, ids, codec, now, i);
    }
    if !NoStray(values, |ids|, |ids| + |back|) {
      var j :| |ids| <= j < |ids| + |back| && Get(values, j);
      assert Get(parsed, |front| + j);
    }
  }

  // ------------------------------------------------------------------ marking

  /** The marks after setting each of `videos` in turn. */
  function Marked(values: seq<byte>, ids: seq<string>, videos: seq<string>, on: bool): seq<byte> {
    if videos == [] then values
    else
      var last := |videos| - 1;
      var before := Marked(values, ids, videos[..last], on);
      if videos[last] in ids then Set(before, IndexOf(ids, videos[last]), on) else before
  }

  lemma {:induction false} MarkedGet(values: seq<byte>, ids: seq<string>, videos: seq<string>, on: bool, i: nat)
    requires Distinct(ids) && i < |ids|
    ensures Get(Marked(values, ids, videos, on), i) == if ids[i] in videos then on else Get(values, i)
  {
    if videos != [] {
      var last := |videos| - 1;
      MarkedGet(values, ids, videos[..last], on, i);
      assert videos == videos[..last] + [videos[last]];
      if videos[last] in ids {
        SetGet(Marked(values, ids, videos[..last], on), IndexOf(ids, videos[last]), on, i);
      }
    }
  }

  /** Marking through the stored string changes the episodes marked, and no other. */
  lemma {:induction false} MarkingIsExact(stored: Option<string>, ids: seq<string>, videos: seq<string>, on: bool,
                                          codec: Codec, i: nat)
    requires codec.Lossless() && Distinct(ids) && i < |ids|
    ensures var before := Parse(stored, ids, codec);
      var after := Parse(Some(Serialize(Marked(before, ids, videos, on), ids, codec)), ids, codec);
      Get(after, i) == if ids[i] in videos then on else Get(before, i)
  {
    var before := Parse(stored, ids, codec);
    RoundTrip(Marked(before, ids, videos, on), ids, codec);
    MarkedGet(before, ids, videos, on, i);
  }

  // ------------------------------------------------------- the object itself

  class WatchedBitField {
    var values: seq<byte>
    const videoIds: seq<string>

    constructor Empty(ids: seq<string>)
      ensures values == Blank(ids) && videoIds == ids
    {
      values, videoIds := Zeros((|ids| + 7) / 8), ids;
    }

    constructor Of(values: seq<byte>, ids: seq<string>)
      ensures this.values == values && videoIds == ids
    {
      this.values, videoIds := values, ids;
    }

    method GetAt(i: nat) returns (watched: bool)
      ensures watched == Get(values, i)
    {
      var b := i / 8;
      if b >= |values| { return false; }
      watched := LowestShifted(values[b], i % 8);
    }

    method SetAt(i: nat, watched: bool)
      modifies this
      ensures values == Set(old(values), i, watched)
    {
      var b := i / 8;
      if b >= |values| { values := values + Zeros(b - |values| + 1); }
      var changed := WithShiftedOne(values[b], i % 8, watched);
      values := values[b := changed];
    }

    method GetVideo(id: string) returns (watched: bool)
      ensures watched == (id in videoIds && Get(values, IndexOf(videoIds, id)))
    {
      if id !in videoIds { return false; }
      watched := GetAt(IndexOf(videoIds, id));
    }

    method SetVideo(id: string, watched: bool)
      modifies this
      ensures values == Marked(old(values), videoIds, [id], watched)
    {
      if id in videoIds { SetAt(IndexOf(videoIds, id), watched); }
      assert [id][..0] == [];
    }

    method WatchedIds() returns (watched: seq<string>)
      ensures forall id :: id in watched <==> exists i :: 0 <= i < |videoIds| && Get(values, i) && videoIds[i] == id
      ensures |watched| <= |videoIds|
    {
      watched := [];
      for i := 0 to |videoIds|
        invariant |watched| <= i
        invariant forall id :: id in watched <==> exists k :: 0 <= k < i && Get(values, k) && videoIds[k] == id
      {
        var on := GetAt(i);
        if on { watched := watched + [videoIds[i]]; }
      }
    }

    method ToText(codec: Codec) returns (text: string)
      ensures text == Serialize(values, videoIds, codec)
    {
      hide BitOf, WithBit;
      var last: nat, i := 0, |videoIds|;
      while i > 0
        invariant 0 <= i <= |videoIds| && last == 0
        invariant LastMarked(values, |videoIds|) == LastMarked(values, i)
      {
        i := i - 1;
        var on := GetAt(i);
        if on {
          last := i;
          break;
        }
      }
      var anchor := if last < |videoIds| then videoIds[last] else "undefined";
      text := anchor + ([':'] + Digits(last + 1)) + ([':'] + codec.pack(values));
    }
  }

  /** The loop that realigns the stored bits to a list that has moved by `offset`. */
  method Realign(stored: WatchedBitField, offset: int) returns (field: WatchedBitField)
    ensures fresh(field) && field.videoIds == stored.videoIds
    ensures field.values == Moved(stored.values, offset, |stored.videoIds|, |stored.videoIds|)
  {
    hide BitOf, WithBit, Set;
    field := new WatchedBitField.Empty(stored.videoIds);
    var storedLength := |stored.values| * 8;
    for index := 0 to |stored.videoIds|
      invariant field.values == Moved(stored.values, offset, |stored.videoIds|, index)
    {
      var previous := index + offset;
      if 0 <= previous < storedLength {
        var on := stored.GetAt(previous);
        field.SetAt(index, on);
      }
    }
  }

  /** `parse`: the field the account's string says, for the list as it is now. */
  method Read(serialized: Option<string>, ids: seq<string>, codec: Codec) returns (field: WatchedBitField)
    ensures fresh(field) && field.videoIds == ids && field.values == Parse(serialized, ids, codec)
  {
    hide BitOf, WithBit, Set, Moved;
    var parts := if serialized.Some? then TakenApart(serialized.value, codec) else None;
    if parts.None? || parts.value.0 !in ids {
      field := new WatchedBitField.Empty(ids);
      return;
    }
    var (anchor, length, values) := parts.value;
    var offset := length - IndexOf(ids, anchor) - 1;
    if offset == 0 {
      var needed := (|ids| + 7) / 8;
      field := new WatchedBitField.Of(if |values| < needed then values + Zeros(needed - |values|) else values, ids);
    } else {
      var stored := new WatchedBitField.Of(values, ids);
      field := Realign(stored, offset);
    }
  }
}

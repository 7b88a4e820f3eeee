/** bta_av_sbc.c: raising the sample rate of PCM audio by repeating frames; an accumulator saves the division. */
module UpSampler {
  type int16 = x: int | -0x8000 <= x < 0x8000

  /** The value of a 32-bit signed variable that x is assigned to. */
  function Int32(x: int): (r: int)
    ensures -0x8000_0000 <= r < 0x8000_0000
    ensures -0x8000_0000 <= x < 0x8000_0000 ==> r == x
  {
    (x + 0x8000_0000) % 0x1_0000_0000 - 0x8000_0000
  }

  // ----- what one call produces

  function CeilDiv(x: nat, y: nat): (r: nat)
    requires y > 0
    ensures (r - 1) * y < x <= r * y
  {
    LemmaCeil(x, y);
    (x + y - 1) / y
  }

  function Min(x: nat, y: nat): nat {
    if x <= y then x else y
  }

  /** How often the last frame of the call before is repeated first, when the accumulator is at c. */
  function Carry(c: int, src: nat, room: nat): nat
    requires src > 0
  {
    if c <= 0 then 0 else Min(CeilDiv(c, src), room)
  }

  /** How many frames come of n frames. */
  function Produced(n: nat, src: nat, dst: nat, room: nat): nat
    requires src > 0
  {
    Min(CeilDiv(n * dst, src), room)
  }

  /** How many frames are read for k to be produced. */
  function Read(k: nat, src: nat, dst: nat): nat
    requires dst > 0
  {
    if k == 0 then 0 else (k - 1) * src / dst + 1
  }

  // ----- arithmetic

  lemma LemmaCeil(x: nat, y: nat)
    requires y > 0
    ensures ((x + y - 1) / y - 1) * y < x <= (x + y - 1) / y * y
  {
    var q := (x + y - 1) / y;
    assert x + y - 1 == q * y + (x + y - 1) % y;
    assert (q - 1) * y == q * y - y;
  }

  lemma CeilUnique(x: nat, y: nat, k: nat)
    requires y > 0 && (k - 1) * y < x <= k * y
    ensures CeilDiv(x, y) == k
  {
    var q := CeilDiv(x, y);
    if q < k {
      Monotone(q, k - 1, y);
    } else if k < q {
      Monotone(k, q - 1, y);
    }
  }

  lemma OneMore(k: int, y: nat)
    ensures (k + 1) * y == k * y + y && (k - 1) * y == k * y - y
  {
  }

  lemma Monotone(a: int, b: int, y: nat)
    requires a <= b
    ensures a * y <= b * y
  {
  }

  /** The source frame of output frame j is the one whose span contains it. */
  lemma FloorUnique(x: nat, y: nat, i: nat)
    requires y > 0 && i * y <= x < (i + 1) * y
    ensures x / y == i
  {
    var q := x / y;
    assert q * y <= x < (q + 1) * y;
    if q < i {
      Monotone(q + 1, i, y);
    } else if i < q {
      Monotone(i + 1, q, y);
    }
  }

  // ----- the conversion

  /** tBTA_AV_SBC_UPS_CB */
  class Converter {
    var curPos: int
    var srcSps: nat
    var dstSps: nat
    var bits: nat
    var channels: nat
    var worker1: int16
    var worker2: int16
    var div: nat

    /** Raising, and by rates of which twice the larger fits the accumulator. */
    ghost predicate Valid()
      reads this
    {
      0 < srcSps <= dstSps < 0x4000_0000 && -0x4000_0000 < curPos < 0x8000_0000
    }

    /** bta_av_sbc_init_up_sample */
    constructor (srcSps: nat, dstSps: nat, bits: nat, channels: nat)
      ensures 0 < srcSps <= dstSps < 0x4000_0000 ==> Valid()
      ensures this.srcSps == srcSps && this.dstSps == dstSps && curPos == -1
      ensures div == (if channels == 1 then 1 else 2) * (if bits == 8 then 1 else 2)
    {
      curPos, this.srcSps, this.dstSps, this.bits, this.channels := -1, srcSps, dstSps, bits, channels;
      worker1, worker2 := 0, 0;
      if channels == 1 {
        div := if bits == 8 then 1 else 2;
      } else {
        div := if bits == 8 then 2 else 4;
      }
    }

    /** bta_av_sbc_up_sample_16s. The carried frame fills in first; then output frame j of this call is source frame
        floor(j * srcSps / dstSps), until the source frames or the room run out. */
    method UpSample16s(src: array<int16>, dst: array<int16>, srcSamples: nat, dstSamples: nat)
      returns (written: nat, used: nat)
      requires Valid() && src != dst && 2 * srcSamples <= src.Length && 2 * dstSamples <= dst.Length
      modifies this`curPos, this`worker1, this`worker2, dst
      ensures Valid()
      ensures var carry := Carry(old(curPos), srcSps, dstSamples);
        var k := Produced(srcSamples, srcSps, dstSps, dstSamples - carry);
        var i := Read(k, srcSps, dstSps);
        && i <= srcSamples && written == 4 * (carry + k) && used == 4 * i
        && Repeated(dst[..], carry, old(worker1), old(worker2))
        && Resampled(src[..], dst[..], carry, k, i, srcSps, dstSps)
        && Outside(old(dst[..]), dst[..], 0, carry + k)
        && curPos == Drained(Acc(i, k, srcSps, dstSps), dstSps) && 0 <= curPos < 2 * dstSps
        && (if i == 0 then worker1 == old(worker1) && worker2 == old(worker2)
            else Holds(src[..], i - 1, worker1, worker2))
      ensures var (frames, c) := Call(old(curPos), 0, srcSamples, srcSps, dstSps);
        |frames| <= dstSamples ==>
          && written == 4 * |frames| && used == 4 * srcSamples && curPos == c
          && Shown(dst[..], frames, src[..], old(worker1), old(worker2))
    {
      ghost var c, left, right := curPos, worker1, worker2;
      var carry := RepeatCarried(dst, dstSamples);
      ghost var before := dst[..];
      var k, i := Resample(src, dst, srcSamples, carry, dstSamples - carry);
      Together(old(dst[..]), before, dst[..], carry, carry + k, old(worker1), old(worker2));
      ShownWithRoom(c, srcSamples, srcSps, dstSps, dstSamples, src[..], dst[..], left, right);
      curPos := Drained(curPos, dstSps);
      written, used := 4 * (carry + k), 4 * i;
    }

    /** The first loop. */
    method RepeatCarried(dst: array<int16>, dstSamples: nat) returns (f: nat)
      requires Valid() && 2 * dstSamples <= dst.Length
      modifies this`curPos, dst
      ensures Valid() && f == Carry(old(curPos), srcSps, dstSamples) <= dstSamples
      ensures Repeated(dst[..], f, worker1, worker2) && Outside(old(dst[..]), dst[..], 0, f)
    {
      var room := dstSamples;
      ghost var c, taken := curPos, 0;
      f := 0;
      while curPos > 0 && room > 0
        invariant room == dstSamples - f && f <= dstSamples
        invariant curPos == c - taken && taken == f * srcSps && Valid()
        invariant f > 0 ==> c > taken - srcSps
        invariant Repeated(dst[..], f, worker1, worker2) && Outside(old(dst[..]), dst[..], 0, f)
        decreases room
      {
        RepeatOne(old(dst[..]), dst[..], f, worker1, worker2);
        WriteFrame(dst, f, worker1, worker2);
        curPos := Int32(curPos - srcSps);
        room := room - 1;
        OneMore(f, srcSps);
        f, taken := f + 1, taken + srcSps;
      }
      OneMore(f, srcSps);
      CarryIs(c, srcSps, dstSamples, f);
    }

    /** The second loop: the source frames one after the other. */
    method Resample(src: array<int16>, dst: array<int16>, n: nat, base: nat, room: nat) returns (k: nat, i: nat)
      requires Valid() && src != dst && 2 * n <= src.Length && 2 * (base + room) <= dst.Length
      modifies this`curPos, this`worker1, this`worker2, dst
      ensures Valid()
      ensures k == Produced(n, srcSps, dstSps, room) <= room && i == Read(k, srcSps, dstSps) <= n
      ensures Resampled(src[..], dst[..], base, k, i, srcSps, dstSps)
      ensures Outside(old(dst[..]), dst[..], base, base + k)
      ensures curPos == Acc(i, k, srcSps, dstSps) && 0 <= curPos < 2 * dstSps
      ensures if i == 0 then worker1 == old(worker1) && worker2 == old(worker2)
        else Holds(src[..], i - 1, worker1, worker2)
    {
      curPos := Int32(dstSps);
      k, i := 0, 0;
      while i < n && k < room
        invariant Valid() && k <= room && i <= n && (k < room ==> Due(i, k, srcSps, dstSps))
        invariant Last(i, k, srcSps, dstSps) && curPos == Acc(i, k, srcSps, dstSps)
        invariant Resampled(src[..], dst[..], base, k, i, srcSps, dstSps)
        invariant Outside(old(dst[..]), dst[..], base, base + k)
        invariant if i == 0 then worker1 == old(worker1) && worker2 == old(worker2)
          else Holds(src[..], i - 1, worker1, worker2)
      {
        ghost var before, from := dst[..], k;
        k := TakeFrame(src, dst, i, base, k, room);
        OutsideAgain(old(dst[..]), before, dst[..], base, base + from, base + k);
        i := i + 1;
      }
      Total(n, room, i, k, srcSps, dstSps);
    }

    /** One turn of the second loop. */
    method TakeFrame(src: array<int16>, dst: array<int16>, i: nat, base: nat, from: nat, room: nat) returns (k: nat)
      requires Valid() && src != dst && 2 * (i + 1) <= src.Length && 2 * (base + room) <= dst.Length && from < room
      requires Last(i, from, srcSps, dstSps) && Due(i, from, srcSps, dstSps) && curPos == Acc(i, from, srcSps, dstSps)
      requires Resampled(src[..], dst[..], base, from, i, srcSps, dstSps)
      modifies this`curPos, this`worker1, this`worker2, dst
      ensures Valid() && from < k <= room && curPos == Acc(i + 1, k, srcSps, dstSps)
      ensures Last(i + 1, k, srcSps, dstSps) && (k < room ==> Due(i + 1, k, srcSps, dstSps))
      ensures Resampled(src[..], dst[..], base, k, i + 1, srcSps, dstSps)
      ensures Outside(old(dst[..]), dst[..], base + from, base + k)
      ensures Holds(src[..], i, worker1, worker2)
    {
      worker1, worker2 := src[2 * i], src[2 * i + 1];
      k := RepeatFrame(src, dst, i, base, from, room);
      AccBounds(i, k, srcSps, dstSps);
      curPos := Int32(curPos + dstSps);
    }

    /** The loop inside: the frame just read, at least once. */
    method RepeatFrame(src: array<int16>, dst: array<int16>, i: nat, base: nat, from: nat, room: nat) returns (k: nat)
      requires Valid() && src != dst && 2 * (i + 1) <= src.Length && 2 * (base + room) <= dst.Length && from < room
      requires Last(i, from, srcSps, dstSps) && Due(i, from, srcSps, dstSps) && curPos == Acc(i, from, srcSps, dstSps)
      requires Resampled(src[..], dst[..], base, from, i, srcSps, dstSps) && Holds(src[..], i, worker1, worker2)
      modifies this`curPos, dst
      ensures Valid() && from < k <= room && curPos == Acc(i, k, srcSps, dstSps)
      ensures Last(i + 1, k, srcSps, dstSps) && (k < room ==> Due(i + 1, k, srcSps, dstSps))
      ensures Resampled(src[..], dst[..], base, k, i + 1, srcSps, dstSps)
      ensures Outside(old(dst[..]), dst[..], base + from, base + k)
    {
      k := from;
      var more := true;
      Enter(i, k, srcSps, dstSps);
      while more
        invariant Valid() && from <= k <= room && curPos == Acc(i, k, srcSps, dstSps)
        invariant more ==> k < room && InSpan(i, k, srcSps, dstSps)
        invariant !more ==> Last(i + 1, k, srcSps, dstSps) && k > from && (curPos <= 0 || k == room)
        invariant Resampled(src[..], dst[..], base, k, i + 1, srcSps, dstSps)
        invariant Outside(old(dst[..]), dst[..], base + from, base + k)
        decreases more, room - k
      {
        OutsideNext(old(dst[..]), dst[..], base + from, base + k, worker1, worker2);
        WriteNext(src, dst, i, base, k);
        curPos := Int32(curPos - srcSps);
        Onward(i, k, srcSps, dstSps);
        k := k + 1;
        more := curPos > 0 && k < room;
      }
    }

    method WriteNext(src: array<int16>, dst: array<int16>, i: nat, base: nat, k: nat)
      requires Valid() && src != dst && 2 * (i + 1) <= src.Length && 2 * (base + k + 1) <= dst.Length
      requires InSpan(i, k, srcSps, dstSps) && Holds(src[..], i, worker1, worker2)
      requires Resampled(src[..], dst[..], base, k, i + 1, srcSps, dstSps)
      modifies dst
      ensures Resampled(src[..], dst[..], base, k + 1, i + 1, srcSps, dstSps)
      ensures dst[..] == Put(old(dst[..]), base + k, worker1, worker2)
    {
      ResampleOne(src[..], dst[..], base, k, i, worker1, worker2, srcSps, dstSps);
      WriteFrame(dst, base + k, worker1, worker2);
    }
  }

  /** Two samples at p_dst_tmp */
  method WriteFrame(dst: array<int16>, f: nat, left: int16, right: int16)
    requires 2 * f + 1 < dst.Length
    modifies dst
    ensures dst[..] == Put(old(dst[..]), f, left, right)
  {
    dst[2 * f] := left;
    dst[2 * f + 1] := right;
  }

  function Put(s: seq<int16>, f: nat, left: int16, right: int16): (r: seq<int16>)
    requires 2 * f + 1 < |s|
    ensures |r| == |s|
  {
    s[2 * f := left][2 * f + 1 := right]
  }

  // ----- what the loops keep

  ghost predicate Holds(s: seq<int16>, f: nat, left: int16, right: int16) {
    2 * f + 1 < |s| && s[2 * f] == left && s[2 * f + 1] == right
  }

  /** The first n frames are all the same. */
  ghost predicate Repeated(s: seq<int16>, n: nat, left: int16, right: int16) {
    forall f :: 0 <= f < n ==> Holds(s, f, left, right)
  }

  /** Only frames from lo to hi differ. */
  ghost predicate Outside(a: seq<int16>, b: seq<int16>, lo: nat, hi: nat) {
    |a| == |b| && forall x :: 0 <= x < |b| && (x < 2 * lo || 2 * hi <= x) ==> b[x] == a[x]
  }

  /** The source frame for output frame j. */
  function Source(j: nat, srcSps: nat, dstSps: nat): nat
    requires dstSps > 0
  {
    j * srcSps / dstSps
  }

  /** The k frames from frame `base` on each are the source frame at their time; only i source frames are needed. */
  ghost predicate Resampled(src: seq<int16>, dst: seq<int16>, base: nat, k: nat, i: nat, srcSps: nat, dstSps: nat)
    requires dstSps > 0 && 2 * i <= |src|
  {
    forall j :: 0 <= j < k ==> Source(j, srcSps, dstSps) < i && SameFrame(dst, base + j, src, Source(j, srcSps, dstSps))
  }

  ghost predicate SameFrame(a: seq<int16>, f: nat, b: seq<int16>, g: nat) {
    2 * f + 1 < |a| && 2 * g + 1 < |b| && a[2 * f] == b[2 * g] && a[2 * f + 1] == b[2 * g + 1]
  }

  lemma RepeatOne(a: seq<int16>, b: seq<int16>, f: nat, left: int16, right: int16)
    requires Repeated(b, f, left, right) && Outside(a, b, 0, f) && 2 * f + 1 < |b|
    ensures Repeated(Put(b, f, left, right), f + 1, left, right) && Outside(a, Put(b, f, left, right), 0, f + 1)
  {
    var c := Put(b, f, left, right);
    forall g | 0 <= g < f + 1 ensures Holds(c, g, left, right) {
      if g < f { assert Holds(b, g, left, right); }
    }
  }

  lemma OutsideNext(a: seq<int16>, b: seq<int16>, lo: nat, hi: nat, left: int16, right: int16)
    requires lo <= hi && 2 * hi + 1 < |a| && Outside(a, b, lo, hi)
    ensures Outside(a, Put(b, hi, left, right), lo, hi + 1)
  {
  }

  lemma OutsideAgain(a: seq<int16>, b: seq<int16>, c: seq<int16>, lo: nat, mid: nat, hi: nat)
    requires Outside(a, b, lo, mid) && Outside(b, c, mid, hi) && lo <= mid <= hi
    ensures Outside(a, c, lo, hi)
  {
    forall x | 0 <= x < |c| && (x < 2 * lo || 2 * hi <= x) ensures c[x] == a[x] {
      assert b[x] == a[x];
    }
  }

  lemma Together(a: seq<int16>, b: seq<int16>, c: seq<int16>, f: nat, g: nat, left: int16, right: int16)
    requires Repeated(b, f, left, right) && Outside(a, b, 0, f) && Outside(b, c, f, g) && f <= g
    ensures Repeated(c, f, left, right) && Outside(a, c, 0, g)
  {
    OutsideAgain(a, b, c, 0, f, g);
    forall h | 0 <= h < f ensures Holds(c, h, left, right) {
      assert Holds(b, h, left, right);
    }
  }

  lemma ResampleOne(src: seq<int16>, dst: seq<int16>, base: nat, k: nat, i: nat, left: int16, right: int16,
                    srcSps: nat, dstSps: nat)
    requires dstSps > 0 && 2 * (i + 1) <= |src| && 2 * (base + k) + 1 < |dst|
    requires InSpan(i, k, srcSps, dstSps) && Holds(src, i, left, right)
    requires Resampled(src, dst, base, k, i + 1, srcSps, dstSps)
    ensures Resampled(src, Put(dst, base + k, left, right), base, k + 1, i + 1, srcSps, dstSps)
  {
    FloorUnique(k * srcSps, dstSps, i);
    assert Source(k, srcSps, dstSps) == i;
    var r := Put(dst, base + k, left, right);
    forall j | 0 <= j < k + 1
      ensures Source(j, srcSps, dstSps) < i + 1 && SameFrame(r, base + j, src, Source(j, srcSps, dstSps))
    {
      if j < k { assert SameFrame(dst, base + j, src, Source(j, srcSps, dstSps)); }
    }
  }

  // ----- the accumulator

  /** Its value after k frames, while source frame i is repeated. */
  function Acc(i: nat, k: nat, srcSps: nat, dstSps: nat): int {
    (i + 1) * dstSps - k * srcSps
  }

  /** A full span left is as good as none. */
  function Drained(c: int, dstSps: nat): int {
    if c == dstSps then 0 else c
  }

  /** Output frame k starts while source frame i lasts. */
  ghost predicate InSpan(i: nat, k: nat, srcSps: nat, dstSps: nat) {
    i * dstSps <= k * srcSps < (i + 1) * dstSps
  }

  /** The last of k frames came from the last of i source frames. */
  ghost predicate Last(i: nat, k: nat, srcSps: nat, dstSps: nat) {
    if i == 0 then k == 0 else k > 0 && InSpan(i - 1, k - 1, srcSps, dstSps)
  }

  /** The i source frames are over when frame k is due. */
  ghost predicate Due(i: nat, k: nat, srcSps: nat, dstSps: nat) {
    i * dstSps <= k * srcSps
  }

  lemma Enter(i: nat, k: nat, srcSps: nat, dstSps: nat)
    requires 0 < srcSps <= dstSps && Last(i, k, srcSps, dstSps) && Due(i, k, srcSps, dstSps)
    ensures InSpan(i, k, srcSps, dstSps) && Acc(i, k, srcSps, dstSps) <= dstSps
  {
    Distribute(i, k, srcSps, dstSps);
  }

  lemma Onward(i: nat, k: nat, srcSps: nat, dstSps: nat)
    requires 0 < srcSps <= dstSps && InSpan(i, k, srcSps, dstSps)
    ensures Last(i + 1, k + 1, srcSps, dstSps)
    ensures Acc(i, k + 1, srcSps, dstSps) == Acc(i, k, srcSps, dstSps) - srcSps
    ensures Acc(i, k + 1, srcSps, dstSps) <= 0 <==> Due(i + 1, k + 1, srcSps, dstSps)
    ensures Acc(i, k + 1, srcSps, dstSps) > 0 ==> InSpan(i, k + 1, srcSps, dstSps)
    ensures 0 < Acc(i, k + 1, srcSps, dstSps) + srcSps <= dstSps
  {
    Distribute(i, k, srcSps, dstSps);
    Distribute(i + 1, k + 1, srcSps, dstSps);
  }

  /** Between source frames the accumulator is within one span. */
  lemma AccBounds(i: nat, k: nat, srcSps: nat, dstSps: nat)
    requires 0 < srcSps <= dstSps && Last(i + 1, k, srcSps, dstSps)
    ensures Acc(i + 1, k, srcSps, dstSps) == Acc(i, k, srcSps, dstSps) + dstSps
    ensures 0 < Acc(i, k, srcSps, dstSps) + srcSps <= dstSps
  {
    Distribute(i, k - 1, srcSps, dstSps);
    Distribute(i + 1, k - 1, srcSps, dstSps);
  }

  lemma Distribute(i: int, k: int, srcSps: nat, dstSps: nat)
    ensures (i + 1) * dstSps == i * dstSps + dstSps && (k + 1) * srcSps == k * srcSps + srcSps
    ensures (i - 1) * dstSps == i * dstSps - dstSps && (k - 1) * srcSps == k * srcSps - srcSps
  {
  }

  lemma Total(n: nat, room: nat, i: nat, k: nat, src: nat, dst: nat)
    requires 0 < src <= dst && k <= room && i <= n && (i == n || k == room)
    requires Last(i, k, src, dst) && (k < room ==> Due(i, k, src, dst))
    ensures k == Produced(n, src, dst, room) && i == Read(k, src, dst)
    ensures 0 <= Acc(i, k, src, dst) < 2 * dst
  {
    if i > 0 {
      FloorUnique((k - 1) * src, dst, i - 1);
      AccBounds(i - 1, k, src, dst);
    }
    if k < room {
      ProducedAll(n, room, k, src, dst);
    } else if k > 0 {
      ProducedSome(n, i, k, src, dst);
    }
  }

  lemma ProducedAll(n: nat, room: nat, k: nat, src: nat, dst: nat)
    requires 0 < src <= dst && k < room && Last(n, k, src, dst) && Due(n, k, src, dst)
    ensures k == Produced(n, src, dst, room)
  {
    CeilUnique(n * dst, src, k);
  }

  lemma ProducedSome(n: nat, i: nat, k: nat, src: nat, dst: nat)
    requires 0 < src <= dst && 0 < i <= n && k > 0 && InSpan(i - 1, k - 1, src, dst)
    ensures k == Produced(n, src, dst, k)
  {
    Monotone(i, n, dst);
    var q := CeilDiv(n * dst, src);
    if q < k { Monotone(q, k - 1, src); }
  }

  lemma CarryIs(c: int, src: nat, room: nat, f: nat)
    requires src > 0 && f <= room
    requires f > 0 ==> c > (f - 1) * src
    requires c - f * src <= 0 || f == room
    ensures f == Carry(c, src, room)
  {
    if c > 0 {
      if c - f * src <= 0 {
        CeilUnique(c, src, f);
      } else {
        var q := CeilDiv(c, src);
        if q < f { Monotone(q, f - 1, src); }
      }
    }
  }

  // ----- one call or two

  /** Which source frames a call with room for all makes of frames base to base + n: first the one before, as often as
      the accumulator c says; and where it leaves the accumulator. */
  function Call(c: int, base: nat, n: nat, srcSps: nat, dstSps: nat): (seq<int>, int)
    requires srcSps > 0 && dstSps > 0
  {
    var k := CeilDiv(n * dstSps, srcSps);
    (seq(if c <= 0 then 0 else CeilDiv(c, srcSps), j => base - 1)
       + seq(k, (j: nat) => base + Source(j, srcSps, dstSps)),
     Drained(Acc(n, k, srcSps, dstSps), dstSps))
  }

  /** These frames of the source are what dst begins with, the frame before the first being the one carried over. */
  ghost predicate Shown(dst: seq<int16>, frames: seq<int>, src: seq<int16>, left: int16, right: int16) {
    forall j :: 0 <= j < |frames| ==>
      if frames[j] < 0 then Holds(dst, j, left, right) else SameFrame(dst, j, src, frames[j])
  }

  /** With room for all, a call carries over, makes, reads and leaves what Call says. */
  lemma RoomForAll(c: int, n: nat, srcSps: nat, dstSps: nat, room: nat)
    requires 0 < srcSps <= dstSps
    ensures var (frames, d) := Call(c, 0, n, srcSps, dstSps);
      |frames| <= room ==>
        var carry := Carry(c, srcSps, room);
        var k := Produced(n, srcSps, dstSps, room - carry);
        && carry + k == |frames| && Read(k, srcSps, dstSps) == n && d == Drained(Acc(n, k, srcSps, dstSps), dstSps)
        && (forall j :: 0 <= j < carry ==> frames[j] == -1)
        && (forall j :: 0 <= j < k ==> frames[carry + j] == Source(j, srcSps, dstSps))
  {
    ReadAll(n, srcSps, dstSps);
  }

  lemma ShownWithRoom(c: int, n: nat, srcSps: nat, dstSps: nat, room: nat, src: seq<int16>, dst: seq<int16>,
                      left: int16, right: int16)
    requires 0 < srcSps <= dstSps && 2 * n <= |src|
    requires var carry := Carry(c, srcSps, room);
      var k := Produced(n, srcSps, dstSps, room - carry);
      && Read(k, srcSps, dstSps) <= n && Repeated(dst, carry, left, right)
      && Resampled(src, dst, carry, k, Read(k, srcSps, dstSps), srcSps, dstSps)
    ensures var (frames, d) := Call(c, 0, n, srcSps, dstSps);
      |frames| <= room ==>
        var carry := Carry(c, srcSps, room);
        var k := Produced(n, srcSps, dstSps, room - carry);
        && carry + k == |frames| && Read(k, srcSps, dstSps) == n && d == Drained(Acc(n, k, srcSps, dstSps), dstSps)
        && Shown(dst, frames, src, left, right)
  {
    RoomForAll(c, n, srcSps, dstSps, room);
    var (frames, _) := Call(c, 0, n, srcSps, dstSps);
    if |frames| <= room {
      var carry := Carry(c, srcSps, room);
      forall j | 0 <= j < |frames|
        ensures if frames[j] < 0 then Holds(dst, j, left, right) else SameFrame(dst, j, src, frames[j])
      {
        if j >= carry { assert frames[j] == frames[carry + (j - carry)]; }
      }
    }
  }

  lemma ReadAll(n: nat, srcSps: nat, dstSps: nat)
    requires 0 < srcSps <= dstSps
    ensures Read(CeilDiv(n * dstSps, srcSps), srcSps, dstSps) == n
  {
    var k := CeilDiv(n * dstSps, srcSps);
    if n > 0 {
      CeilPositive(n * dstSps, srcSps);
      assert (k - 1) * srcSps == k * srcSps - srcSps && (n - 1) * dstSps == n * dstSps - dstSps;
      FloorUnique((k - 1) * srcSps, dstSps, n - 1);
    }
  }

  /** Cutting a stream in two calls gives the same frames as one call exactly when the first part fills whole output
      frames: otherwise the second call starts with the last frame of the first all over again. */
  lemma TwoCallsAreOne(n: nat, m: nat, srcSps: nat, dstSps: nat)
    requires 0 < srcSps <= dstSps
    ensures var (one, c) := Call(0, 0, n, srcSps, dstSps);
      one + Call(c, n, m, srcSps, dstSps).0 == Call(0, 0, n + m, srcSps, dstSps).0 <==> n * dstSps % srcSps == 0
  {
    assert (n + m) * dstSps == n * dstSps + m * dstSps;
    var k, q := CeilDiv(n * dstSps, srcSps), CeilDiv(m * dstSps, srcSps);
    assert Acc(n, k, srcSps, dstSps) == n * dstSps + dstSps - k * srcSps;
    CountTwice(n * dstSps, m * dstSps, Acc(n, k, srcSps, dstSps), srcSps, dstSps);
    var (one, c) := Call(0, 0, n, srcSps, dstSps);
    var two, all := one + Call(c, n, m, srcSps, dstSps).0, Call(0, 0, n + m, srcSps, dstSps).0;
    if n * dstSps % srcSps == 0 {
      CeilExact(n * dstSps, srcSps);
      forall j | 0 <= j < |all| ensures two[j] == all[j] {
        if j >= k { SourceLater(n, k, j - k, srcSps, dstSps); }
      }
    } else {
      assert |two| != |all|;
    }
  }

  /** From the start of a whole output frame on, the source frames are those from there on. */
  lemma SourceLater(n: nat, k: nat, j: nat, srcSps: nat, dstSps: nat)
    requires 0 < srcSps <= dstSps && k * srcSps == n * dstSps
    ensures Source(k + j, srcSps, dstSps) == n + Source(j, srcSps, dstSps)
  {
    var x, i := j * srcSps, Source(j, srcSps, dstSps);
    assert i * dstSps <= x < (i + 1) * dstSps;
    assert (k + j) * srcSps == n * dstSps + x;
    assert (n + i) * dstSps == n * dstSps + i * dstSps && (n + i + 1) * dstSps == n * dstSps + (i + 1) * dstSps;
    FloorUnique((k + j) * srcSps, dstSps, n + i);
  }

  /** One frame and one more, from 2 to 3, are not the same in two calls. */
  lemma TwoCallsDiffer()
    ensures var (one, c) := Call(0, 0, 1, 2, 3); one + Call(c, 1, 1, 2, 3).0 != Call(0, 0, 2, 2, 3).0
  {
    TwoCallsAreOne(1, 1, 2, 3);
  }

  lemma CountTwice(a: nat, b: nat, c: int, srcSps: nat, dstSps: nat)
    requires 0 < srcSps <= dstSps && c == a + dstSps - CeilDiv(a, srcSps) * srcSps
    ensures c > 0
    ensures var k := CeilDiv(a, srcSps) + CeilDiv(b, srcSps);
      (if c == dstSps then k else k + CeilDiv(c, srcSps)) == CeilDiv(a + b, srcSps) <==> a % srcSps == 0
  {
    CeilSum(a, b, srcSps);
    CeilExact(a, srcSps);
    CeilBelow(a, srcSps);
    CeilPositive(c, srcSps);
  }

  lemma CeilBelow(x: nat, y: nat)
    requires y > 0
    ensures CeilDiv(x, y) * y < x + y
  {
    var q := CeilDiv(x, y);
    assert (q - 1) * y == q * y - y;
  }

  lemma CeilPositive(x: nat, y: nat)
    requires x > 0 && y > 0
    ensures CeilDiv(x, y) >= 1
  {
    var q := CeilDiv(x, y);
    assert q == 0 ==> q * y == 0;
  }

  lemma CeilExact(x: nat, y: nat)
    requires y > 0
    ensures x % y == 0 <==> CeilDiv(x, y) * y == x
  {
    var q := x / y;
    assert x == q * y + x % y;
    if x % y == 0 {
      assert (q - 1) * y == q * y - y;
      CeilUnique(x, y, q);
    } else {
      assert (q + 1) * y == q * y + y;
      CeilUnique(x, y, q + 1);
    }
  }

  /** Rounding up twice is never less than rounding up once, and the same if the first part needs none. */
  lemma CeilSum(a: nat, b: nat, y: nat)
    requires y > 0
    ensures CeilDiv(a + b, y) <= CeilDiv(a, y) + CeilDiv(b, y)
    ensures a % y == 0 ==> CeilDiv(a + b, y) == CeilDiv(a, y) + CeilDiv(b, y)
  {
    var p, q, r := CeilDiv(a, y), CeilDiv(b, y), CeilDiv(a + b, y);
    CeilExact(a, y);
    RoundedSum(a, b, y, p, q, r);
  }

  lemma RoundedSum(a: nat, b: nat, y: nat, p: nat, q: nat, r: nat)
    requires y > 0 && (q - 1) * y < b <= q * y && a <= p * y && (r - 1) * y < a + b <= r * y
    ensures r <= p + q && (p * y == a ==> r == p + q)
  {
    assert (p + q) * y == p * y + q * y;
    if p + q < r {
      Monotone(p + q, r - 1, y);
    } else if r < p + q {
      Monotone(r, p + q - 1, y);
      assert (p + q - 1) * y == p * y + (q - 1) * y;
    }
  }
}

/**
 What reassembly passes on for any fragments at all, in any order and from any number of connections, told by looking
 back: no partial packets, only what has come in since the last packet of the connection was begun.
 */
module AclReassembly {
  import opened Bytes
  import opened AclFragments

  // ----- looking back

  predicate Starts(v: seq<byte>)
    requires |v| >= 4
  {
    v[1] / 16 % 4 == 2
  }

  function Channel(v: seq<byte>): nat
    requires |v| >= 4
  {
    v[0] as int + 256 * (v[1] as int % 16)
  }

  /** A fragment with the headers that the source reads. */
  predicate Legible(v: seq<byte>) {
    |v| >= 4 && (Starts(v) ==> |v| >= 6)
  }

  /** The length that a starting fragment announces for its packet, in sixteen bits. */
  function Announced(v: seq<byte>): nat
    requires |v| >= 6
  {
    (v[4] as int + 256 * v[5] as int + 8) % 65536
  }

  /** The last start on connection c, and everything that has continued it: nothing if there was no start. */
  function Since(vs: seq<seq<byte>>, c: nat): (r: seq<byte>)
    requires forall i :: 0 <= i < |vs| ==> Legible(vs[i])
    ensures r == [] || |r| >= 6
  {
    if vs == [] then []
    else
      var v, before := vs[|vs| - 1], Since(vs[..|vs| - 1], c);
      assert Legible(v);
      if Channel(v) != c then before
      else if Starts(v) then v
      else if before == [] then []
      else before + v[4..]
  }

  /** The packet is not complete: fewer bytes than announced. */
  predicate Wanting(all: seq<byte>) {
    |all| >= 6 && |all| < Announced(all)
  }

  /** The announced number of bytes, with that number in the data length field. */
  function Made(all: seq<byte>): seq<byte>
    requires |all| >= 6 && 6 < Announced(all) <= |all|
  {
    var n := Announced(all) - 4;
    [all[0], all[1], n % 256, n / 256] + all[4..4 + n]
  }

  /** What the last of these fragments causes to be passed on: a start that is no shorter than announced, as it is; or
      the packet that a continuation completes. */
  function Passed(vs: seq<seq<byte>>): Option<seq<byte>>
    requires vs != [] && forall i :: 0 <= i < |vs| ==> Legible(vs[i])
  {
    var v := vs[|vs| - 1];
    assert Legible(v);
    var c := Channel(v);
    if Starts(v) then if Announced(v) <= |v| then Some(v) else None
    else
      var before := Since(vs[..|vs| - 1], c);
      if Wanting(before) && !Wanting(before + v[4..]) then Some(Made(before + v[4..])) else None
  }

  /** All that these fragments cause to be passed on, in order. */
  function AllPassed(vs: seq<seq<byte>>): seq<seq<byte>>
    requires forall i :: 0 <= i < |vs| ==> Legible(vs[i])
  {
    if vs == [] then []
    else AllPassed(vs[..|vs| - 1]) + if Passed(vs).Some? then [Passed(vs).value] else []
  }

  // ----- what the source does

  lemma LegibleReads(v: seq<byte>)
    requires Legible(v)
    ensures Readable(v) && Connection(Handle(v)) == Channel(v) && (Flag(Handle(v)) == START <==> Starts(v))
    ensures |v| >= 6 ==> FullLength(v) == Announced(v)
  {
    HandleBytes(v[0], v[1]);
  }

  /** reassemble_and_dispatch on one ACL packet after the other. */
  function ReassembleAll(vs: seq<seq<byte>>): (Partials, seq<seq<byte>>)
    requires forall i :: 0 <= i < |vs| ==> Legible(vs[i])
  {
    if vs == [] then (map[], [])
    else
      LegibleReads(vs[|vs| - 1]);
      var (m, out) := ReassembleAll(vs[..|vs| - 1]);
      var (m', d) := Reassemble(m, vs[|vs| - 1]);
      (m', out + if d.Some? then [d.value] else [])
  }

  /** A connection has a partial packet exactly while it waits for more; the partial packet is what has come, with the
      announced length in its header. */
  ghost predicate Agrees(m: Partials, all: seq<byte>, c: nat) {
    && (c in m <==> Wanting(all))
    && (c in m ==> m[c].len == Announced(all) && m[c].got == Corrected(all, Announced(all)))
  }

  lemma CorrectedMore(all: seq<byte>, x: seq<byte>, full: nat)
    requires |all| >= 6 && 4 <= full < 0x10000
    ensures Corrected(all, full) + x == Corrected(all + x, full)
  {
  }

  lemma AnnouncedKept(all: seq<byte>, x: seq<byte>)
    requires |all| >= 6
    ensures Announced(all + x) == Announced(all)
  {
  }

  lemma CorrectedWhole(all: seq<byte>, x: seq<byte>, full: nat)
    requires 6 <= |all| < full <= |all| + |x| && full == Announced(all)
    ensures Corrected(all, full) + x[..full - |all|] == Made(all + x)
  {
    AnnouncedKept(all, x);
    var n, a, b := full - 4, Corrected(all, full) + x[..full - |all|], Made(all + x);
    assert Le16(n) == [n % 256, n / 256];
    assert |a| == |b| == full;
    forall i | 0 <= i < full ensures a[i] == b[i] {
      if 4 <= i < |all| { assert b[i] == (all + x)[i] == all[i]; }
    }
  }

  /** A start, whatever was there before. */
  lemma StartAgrees(m: Partials, v: seq<byte>)
    requires Legible(v) && Starts(v)
    ensures var (m', d) := Reassemble(m, v);
      && Agrees(m', v, Channel(v))
      && d == (if Announced(v) <= |v| then Some(v) else None)
      && m' - {Channel(v)} == m - {Channel(v)}
  {
    LegibleReads(v);
  }

  lemma ContinuationAgrees(m: Partials, all: seq<byte>, v: seq<byte>)
    requires Legible(v) && !Starts(v) && Agrees(m, all, Channel(v)) && (all == [] || |all| >= 6)
    ensures var (m', d) := Reassemble(m, v);
      && Agrees(m', if all == [] then [] else all + v[4..], Channel(v))
      && d == (if Wanting(all) && !Wanting(all + v[4..]) then Some(Made(all + v[4..])) else None)
      && m' - {Channel(v)} == m - {Channel(v)}
  {
    var c, x := Channel(v), v[4..];
    LegibleReads(v);
    if Wanting(all) {
      var full := Announced(all);
      AnnouncedKept(all, x);
      CorrectedMore(all, x, full);
      if |all| + |x| >= full {
        CorrectedWhole(all, x, full);
        assert Fitting(m[c], v) == x[..full - |all|];
      } else {
        assert Fitting(m[c], v) == x;
      }
    } else if all != [] {
      AnnouncedKept(all, x);
    }
  }

  // ----- main result

  ghost predicate AllAgree(m: Partials, vs: seq<seq<byte>>)
    requires forall i :: 0 <= i < |vs| ==> Legible(vs[i])
  {
    forall c: nat :: Agrees(m, Since(vs, c), c)
  }

  lemma OthersAgree(m: Partials, m': Partials, c: nat, k: nat, all: seq<byte>)
    requires Agrees(m, all, k) && k != c && m' - {c} == m - {c}
    ensures Agrees(m', all, k)
  {
    assert (k in m') == (k in m' - {c}) == (k in m - {c}) == (k in m);
    if k in m { assert m'[k] == (m' - {c})[k] == (m - {c})[k] == m[k]; }
  }

  lemma OneMore(m: Partials, vs: seq<seq<byte>>)
    requires vs != [] && forall i :: 0 <= i < |vs| ==> Legible(vs[i])
    requires AllAgree(m, vs[..|vs| - 1])
    ensures Readable(vs[|vs| - 1]) && AllAgree(Reassemble(m, vs[|vs| - 1]).0, vs)
    ensures Reassemble(m, vs[|vs| - 1]).1 == Passed(vs)
  {
    var v, init := vs[|vs| - 1], vs[..|vs| - 1];
    var c := Channel(v);
    LegibleReads(v);
    assert Agrees(m, Since(init, c), c);
    if Starts(v) { StartAgrees(m, v); } else { ContinuationAgrees(m, Since(init, c), v); }
    var m' := Reassemble(m, v).0;
    forall k: nat ensures Agrees(m', Since(vs, k), k) {
      if k != c {
        assert Agrees(m, Since(init, k), k);
        OthersAgree(m, m', c, k, Since(init, k));
      }
    }
  }

  /** Whatever fragments come in: what is passed on is what looking back says, and a partial packet is kept for just the
      connections that wait for more. */
  lemma PassesOnExactly(vs: seq<seq<byte>>)
    requires forall i :: 0 <= i < |vs| ==> Legible(vs[i])
    ensures ReassembleAll(vs).1 == AllPassed(vs)
    ensures forall c: nat :: c in ReassembleAll(vs).0 <==> Wanting(Since(vs, c))
    decreases |vs|
  {
    ReassembledAgrees(vs);
    forall c: nat ensures c in ReassembleAll(vs).0 <==> Wanting(Since(vs, c)) {
      assert Agrees(ReassembleAll(vs).0, Since(vs, c), c);
    }
  }

  lemma {:induction false} ReassembledAgrees(vs: seq<seq<byte>>)
    requires forall i :: 0 <= i < |vs| ==> Legible(vs[i])
    ensures AllAgree(ReassembleAll(vs).0, vs) && ReassembleAll(vs).1 == AllPassed(vs)
    decreases |vs|
  {
    if vs != [] {
      ReassembledAgrees(vs[..|vs| - 1]);
      OneMore(ReassembleAll(vs[..|vs| - 1]).0, vs);
    }
  }
}

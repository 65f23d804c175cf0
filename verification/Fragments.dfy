/** Handshake messages in fragments: the frame that carries one, and putting them together. */
module Fragments {
  import opened Bytes
  import opened Config
  import opened Arith

  const FRAG_HDR_LEN: nat := 2
  const XFER_MAX: nat := 288
  const MAX_FRAGS: nat := 8
  const TYPES: nat := 16

  // ----- frame headers -----

  function GetLe16(b: seq<Byte>, off: nat): (v: nat)
    requires off + 2 <= |b|
  {
    var low: nat, high: nat := b[off], b[off + 1];
    low + 256 * high
  }

  datatype Header = Header(netid: nat, fcf: Byte, frameSeq: Byte, dst: nat, src: nat)

  predicate HeaderFits(h: Header) {
    h.netid < WORD16 && h.dst < WORD16 && h.src < WORD16
  }

  function HeaderBytes(h: Header): seq<Byte> {
    Le16(h.netid) + [h.fcf, h.frameSeq] + Le16(h.dst) + Le16(h.src)
  }

  // Bit 4 of the frame control field.
  predicate Secured(fcf: Byte) {
    fcf / 16 % 2 == 1
  }

  function HeaderLen(secured: bool): nat {
    if secured then HDR_LEN_SEC else HDR_LEN
  }

  datatype Parsed = Malformed | Parsed(header: Header)

  /** `lg_frame_hdr_get`. */
  function HeaderGet(pdu: seq<Byte>, netid: nat): Parsed {
    if |pdu| < HDR_LEN || GetLe16(pdu, 0) != netid then Malformed
    else
      var h := Header(netid, pdu[2], pdu[3], GetLe16(pdu, 4), GetLe16(pdu, 6));
      if |pdu| >= HeaderLen(Secured(h.fcf)) + (if Secured(h.fcf) then MIC_LEN else 0) then Parsed(h) else Malformed
  }

  /** What one node writes every node of its network reads back, and no other network does. */
  lemma HeaderRoundTrip(h: Header, rest: seq<Byte>, netid: nat)
    requires HeaderFits(h)
    ensures HeaderGet(HeaderBytes(h) + rest, netid) ==
      if netid == h.netid && |rest| >= (if Secured(h.fcf) then 4 + MIC_LEN else 0) then Parsed(h) else Malformed
  {
    var pdu := HeaderBytes(h) + rest;
    assert pdu[0] == h.netid % 256 && pdu[1] == h.netid / 256 % 256;
    assert pdu[2] == h.fcf && pdu[3] == h.frameSeq;
    assert pdu[4] == h.dst % 256 && pdu[5] == h.dst / 256 % 256;
    assert pdu[6] == h.src % 256 && pdu[7] == h.src / 256 % 256;
  }

  // ----- messages and their fragments -----

  datatype Message = Message(ftype: nat, secured: bool, body: seq<Byte>)

  predicate Sendable(m: Message) {
    m.ftype < TYPES && 1 <= |m.body| <= XFER_MAX
  }

  /** What fits in one fragment. */
  function Cap(secured: bool): (c: nat)
    ensures 95 <= c <= 115
  {
    PDU_MAX - FRAG_HDR_LEN - if secured then HDR_LEN_SEC + MIC_LEN else HDR_LEN
  }

  function Total(m: Message): nat {
    Max((|m.body| + Cap(m.secured) - 1) / Cap(m.secured), 1)
  }

  // Fragment `i` starts at `i` times the capacity.
  function Place(secured: bool, i: nat): nat {
    if i == 0 then 0 else Place(secured, i - 1) + Cap(secured)
  }

  lemma {:induction false} PlaceIsProduct(secured: bool, i: nat)
    ensures Place(secured, i) == i * Cap(secured)
  {
    if i > 0 {
      PlaceIsProduct(secured, i - 1);
      assert i * Cap(secured) == (i - 1) * Cap(secured) + Cap(secured);
    }
  }

  function Offset(m: Message, i: nat): nat {
    Place(m.secured, i)
  }

  function Chunk(m: Message, i: nat): seq<Byte>
    requires Offset(m, i) <= |m.body|
  {
    m.body[Offset(m, i)..Min(Offset(m, i) + Cap(m.secured), |m.body|)]
  }

  /** Fragments cover the message exactly, every one but the last full, and never more than four. */
  lemma Coverage(m: Message, i: nat)
    requires Sendable(m) && i < Total(m)
    ensures Total(m) <= 4
    ensures Offset(m, i) < |m.body|
    ensures if i == Total(m) - 1 then Offset(m, i) + |Chunk(m, i)| == |m.body| && |Chunk(m, i)| >= 1
            else |Chunk(m, i)| == Cap(m.secured)
    ensures forall j: nat :: i < j < Total(m) ==> Offset(m, i) + Cap(m.secured) <= Offset(m, j)
  {
    var last := Total(m) - 1;
    TotalFits(m);
    if i < last {
      PlacesApart(m.secured, i, last);
    }
    forall j: nat | i < j
      ensures Offset(m, i) + Cap(m.secured) <= Offset(m, j)
    {
      PlacesApart(m.secured, i, j);
    }
  }

  // The last fragment starts within the message and ends it.
  lemma TotalFits(m: Message)
    requires Sendable(m)
    ensures 1 <= Total(m) <= 4
    ensures Offset(m, Total(m) - 1) < |m.body| <= Offset(m, Total(m) - 1) + Cap(m.secured)
  {
    Pieces(|m.body|, Cap(m.secured));
    PlaceIsProduct(m.secured, Total(m) - 1);
  }

  // How many pieces of `c` cover `n`.
  lemma Pieces(n: nat, c: nat)
    requires 1 <= n <= XFER_MAX && 95 <= c
    ensures var t := (n + c - 1) / c; 1 <= t <= 4 && (t - 1) * c < n <= (t - 1) * c + c
  {
    var t := (n + c - 1) / c;
    DivMod(n + c - 1, c);
    MultiplesOrdered(0, t, c);
    MultiplesOrdered(4, t, c);
    LessOne(t, c);
  }

  lemma LessOne(t: nat, c: nat)
    ensures (t - 1) * c == t * c - c
  {
  }

  lemma {:induction false} PlacesApart(secured: bool, i: nat, j: nat)
    requires i < j
    ensures Place(secured, i) + Cap(secured) <= Place(secured, j)
  {
    if j > i + 1 {
      PlacesApart(secured, i, j - 1);
    }
  }

  datatype Fragment = Fragment(ftype: nat, secured: bool, idx: nat, total: nat, data: seq<Byte>)

  predicate Acceptable(f: Fragment) {
    0 < f.total <= MAX_FRAGS && f.idx < f.total && Place(f.secured, f.idx) + |f.data| <= XFER_MAX
  }

  function FragmentOf(m: Message, i: nat): (f: Fragment)
    requires Sendable(m) && i < Total(m)
    ensures Acceptable(f) && Place(f.secured, f.idx) + |f.data| <= |m.body| && 1 <= |f.data|
  {
    Coverage(m, i);
    Fragment(m.ftype, m.secured, i, Total(m), Chunk(m, i))
  }

  /** The frame around a fragment, in the clear; `ctr` holds the counter bytes if it is secured. */
  function FrameBytes(h: Header, ctr: seq<Byte>, f: Fragment): seq<Byte>
    requires f.idx < 256 && f.total < 256
  {
    HeaderBytes(h) + (if f.secured then ctr else []) + [f.idx, f.total] + f.data
  }

  datatype Opened = TooShort | Opened(f: Fragment)

  /** The fields `reassemble` reads from a frame it has decrypted. */
  function Open(pdu: seq<Byte>): Opened
    requires |pdu| >= HDR_LEN
  {
    var hdr := HeaderLen(Secured(pdu[2]));
    if |pdu| < hdr + FRAG_HDR_LEN then TooShort
    else Opened(Fragment(pdu[2] % 16, Secured(pdu[2]), pdu[hdr], pdu[hdr + 1], pdu[hdr + FRAG_HDR_LEN..]))
  }

  function FcfOf(ftype: nat, secured: bool): Byte
    requires ftype < TYPES
  {
    if secured then ftype + 16 else ftype
  }

  /** A fragment's frame fits the radio, sealed or not, and opens to the same fragment. */
  lemma FrameRoundTrip(m: Message, i: nat, h: Header, ctr: seq<Byte>)
    requires Sendable(m) && i < Total(m) && HeaderFits(h) && |ctr| == 4
    requires h.fcf == FcfOf(m.ftype, m.secured)
    ensures
      var f := FragmentOf(m, i);
      f.total < 256 &&
      var pdu := FrameBytes(h, ctr, f);
      && |pdu| >= HDR_LEN && Open(pdu) == Opened(f)
      && |pdu| + (if m.secured then MIC_LEN else 0) <= PDU_MAX
  {
    Coverage(m, i);
    FrameOpens(h, ctr, FragmentOf(m, i));
  }

  lemma FrameOpens(h: Header, ctr: seq<Byte>, f: Fragment)
    requires |ctr| == 4 && f.idx < 256 && f.total < 256 && f.ftype < TYPES && h.fcf == FcfOf(f.ftype, f.secured)
    ensures
      var pdu := FrameBytes(h, ctr, f);
      |pdu| == HeaderLen(f.secured) + FRAG_HDR_LEN + |f.data| && Open(pdu) == Opened(f)
  {
    var pdu := FrameBytes(h, ctr, f);
    var hdr := HeaderLen(f.secured);
    assert pdu[2] == h.fcf;
    assert pdu[hdr] == f.idx && pdu[hdr + 1] == f.total;
    assert pdu[hdr + FRAG_HDR_LEN..] == f.data;
  }

  // ----- reassembly -----

  type Bits = m: seq<bool> | |m| == 8 witness seq(8, i => false)

  const NO_BITS: Bits := [false, false, false, false, false, false, false, false]

  type Buffer = b: seq<Byte> | |b| == 288 witness Zeros(288)

  function Zeros(n: nat): (z: seq<Byte>)
    ensures |z| == n && forall i :: 0 <= i < n ==> z[i] == 0
  {
    seq(n, i => 0)
  }

  const ZEROS: Buffer := Zeros(288)

  datatype Rx = Rx(ftype: nat, buf: Buffer, seen: Bits, len: nat)

  predicate SeenAll(seen: Bits, total: nat)
    requires total <= MAX_FRAGS
  {
    forall i :: 0 <= i < MAX_FRAGS ==> (seen[i] <==> i < total)
  }

  function Patched(buf: Buffer, off: nat, data: seq<Byte>): Buffer
    requires off + |data| <= XFER_MAX
  {
    buf[..off] + data + buf[off + |data|..]
  }

  // A first fragment, or another type, starts afresh.
  function Reset(rx: Rx, f: Fragment): Rx {
    if rx.ftype != f.ftype || f.idx == 0 then Rx(f.ftype, ZEROS, NO_BITS, 0) else rx
  }

  /** `reassemble`: the new state, and whether the message is complete. */
  function Accept(rx: Rx, f: Fragment): (Rx, bool) {
    if !Acceptable(f) then (rx, false)
    else
      var r := Reset(rx, f);
      var off := Place(f.secured, f.idx);
      var r' := r.(buf := Patched(r.buf, off, f.data), seen := r.seen[f.idx := true],
                   len := if f.idx == f.total - 1 then off + |f.data| else r.len);
      (r', SeenAll(r'.seen, f.total) && r'.len > 0)
  }

  /** Everything received so far belongs to `m`. */
  ghost predicate Holds(rx: Rx, m: Message)
    requires Sendable(m)
  {
    var t := Total(m);
    && rx.ftype == m.ftype && t <= 4
    && (forall i :: 0 <= i < MAX_FRAGS && rx.seen[i] ==> i < t && HasChunk(rx.buf, m, i))
    && (rx.len == if rx.seen[t - 1] then |m.body| else 0)
  }

  ghost predicate HasChunk(buf: Buffer, m: Message, i: nat)
    requires Sendable(m) && i < Total(m)
  {
    Coverage(m, i);
    var off := Offset(m, i);
    forall k {:trigger buf[k]} :: off <= k < off + |Chunk(m, i)| ==> buf[k] == m.body[k]
  }

  /** A state from which `m` can be put together: another type's, an empty one, or one that holds
      some of `m` already. */
  ghost predicate Ready(rx: Rx, m: Message)
    requires Sendable(m)
  {
    rx.ftype != m.ftype || (rx.seen == NO_BITS && rx.len == 0) || Holds(rx, m)
  }

  ghost predicate FirstSeen(rx: Rx, n: nat) {
    n <= MAX_FRAGS && forall k :: 0 <= k < n ==> rx.seen[k]
  }

  lemma EmptyHolds(rx: Rx, m: Message)
    requires Sendable(m) && rx.ftype == m.ftype && rx.seen == NO_BITS && rx.len == 0
    ensures Holds(rx, m)
  {
    Coverage(m, 0);
  }

  lemma PatchKeeps(buf: Buffer, m: Message, i: nat, j: nat)
    requires Sendable(m) && i < Total(m) && j < Total(m)
    requires i == j || HasChunk(buf, m, j)
    ensures HasChunk(Patched(buf, Offset(m, i), FragmentOf(m, i).data), m, j)
  {
    Coverage(m, i);
    Coverage(m, j);
    var off, data := Offset(m, i), Chunk(m, i);
    var b := Patched(buf, off, data);
    forall k | Offset(m, j) <= k < Offset(m, j) + |Chunk(m, j)|
      ensures b[k] == m.body[k]
    {
      if i == j {
        assert b[k] == data[k - off];
      } else {
        assert b[k] == buf[k];
      }
    }
  }

  /** One fragment of `m` in a state ready for it: still all of it belongs to `m`, and what is
      complete is the message and nothing else. */
  lemma AcceptHolds(rx: Rx, m: Message, i: nat)
    requires Sendable(m) && i < Total(m) && (Ready(rx, m) || i == 0)
    ensures
      var (rx', done) := Accept(rx, FragmentOf(m, i));
      && Holds(rx', m)
      && (done <==> FirstSeen(rx', Total(m)))
      && (done ==> rx'.len == |m.body| && rx'.buf[..rx'.len] == m.body)
      && rx'.seen == (if rx.ftype != m.ftype || i == 0 then NO_BITS else rx.seen)[i := true]
  {
    Coverage(m, i);
    Coverage(m, Total(m) - 1);
    var f := FragmentOf(m, i);
    var r := Reset(rx, f);
    if r.seen == NO_BITS && r.len == 0 {
      EmptyHolds(r, m);
    }
    PatchKeeps(r.buf, m, i, i);
    var rx' := Accept(rx, f).0;
    forall j | 0 <= j < MAX_FRAGS && rx'.seen[j]
      ensures j < Total(m) && HasChunk(rx'.buf, m, j)
    {
      PatchKeeps(r.buf, m, i, j);
    }
    if FirstSeen(rx', Total(m)) {
      AllChunks(rx'.buf, m);
    }
  }

  lemma AllChunks(buf: Buffer, m: Message)
    requires Sendable(m) && forall j :: 0 <= j < Total(m) ==> HasChunk(buf, m, j)
    ensures buf[..|m.body|] == m.body
  {
    forall k | 0 <= k < |m.body|
      ensures buf[k] == m.body[k]
    {
      var i := WhichChunk(m, k);
      assert HasChunk(buf, m, i);
    }
  }

  /** Every byte lies in a fragment. */
  lemma WhichChunk(m: Message, k: nat) returns (i: nat)
    requires Sendable(m) && k < |m.body|
    ensures i < Total(m) && Offset(m, i) <= k < Offset(m, i) + |Chunk(m, i)|
  {
    var last := Total(m) - 1;
    Coverage(m, last);
    i := 0;
    while k >= Offset(m, i + 1)
      invariant Offset(m, i) <= k && i <= last
      decreases last - i
    {
      if i == last {
        assert false;
      }
      i := i + 1;
    }
    Coverage(m, i);
  }

  // ----- any sequence of fragments -----

  /** The state after some fragments of one message, in any order and number. */
  function AfterAll(rx: Rx, m: Message, indices: seq<nat>): Rx
    requires Sendable(m) && forall k :: 0 <= k < |indices| ==> indices[k] < Total(m)
  {
    if indices == [] then rx
    else Accept(AfterAll(rx, m, indices[..|indices| - 1]), FragmentOf(m, indices[|indices| - 1])).0
  }

  predicate Indices(m: Message, indices: seq<nat>)
    requires Sendable(m)
  {
    forall k :: 0 <= k < |indices| ==> indices[k] < Total(m)
  }

  /** Starting from `rx`, whatever fragments of `m` arrive, with losses, repeats, reordering and partial
      passes, a fragment that completes anything completes exactly the message. */
  ghost predicate Exact(rx: Rx, m: Message)
    requires Sendable(m)
  {
    forall indices, i: nat | Indices(m, indices) && i < Total(m) :: ExactAfter(AfterAll(rx, m, indices), m, i)
  }

  ghost predicate ExactAfter(rx: Rx, m: Message, i: nat)
    requires Sendable(m) && i < Total(m)
  {
    var (rx', done) := Accept(rx, FragmentOf(m, i));
    done ==> rx'.len == |m.body| && rx'.buf[..rx'.len] == m.body
  }

  /** What is stored and will not be written again before the message can be complete belongs to `m`. */
  ghost predicate Owned(rx: Rx, m: Message)
    requires Sendable(m) && Total(m) <= 4
  {
    var t := Total(m);
    && (forall j :: 0 <= j < t - 1 && rx.seen[j] ==> HasChunk(rx.buf, m, j))
    && (t >= 3 && rx.seen[t - 1] && rx.len > 0 ==> rx.len == |m.body| && HasChunk(rx.buf, m, t - 1))
  }

  /** When a buffer is safe for `m`: fragment 0 is still to come and will clear it, or a mark past the
      message's end keeps it from completing, or all that matters in it belongs to `m`. */
  ghost predicate Safe(rx: Rx, m: Message)
    requires Sendable(m) && Total(m) <= 4
  {
    || rx.ftype != m.ftype || Total(m) == 1 || !rx.seen[0]
    || (exists j :: Total(m) <= j < MAX_FRAGS && rx.seen[j])
    || Owned(rx, m)
  }

  lemma AcceptSafe(rx: Rx, m: Message, i: nat)
    requires Sendable(m) && i < Total(m) <= 4 && Safe(rx, m)
    ensures Safe(Accept(rx, FragmentOf(m, i)).0, m) && ExactAfter(rx, m, i)
  {
    if i == 0 || rx.ftype != m.ftype {
      AcceptHolds(rx, m, i);
    } else {
      AcceptOwned(rx, m, i);
    }
  }

  // A fragment other than the first, of the type already stored, is patched in.
  function PatchedIn(rx: Rx, m: Message, i: nat): Rx
    requires Sendable(m) && i < Total(m)
  {
    Coverage(m, i);
    rx.(buf := Patched(rx.buf, Offset(m, i), FragmentOf(m, i).data), seen := rx.seen[i := true],
        len := if i == Total(m) - 1 then |m.body| else rx.len)
  }

  lemma AcceptPatches(rx: Rx, m: Message, i: nat)
    requires Sendable(m) && 0 < i < Total(m) && rx.ftype == m.ftype
    ensures
      var r := PatchedIn(rx, m, i);
      Total(m) <= 4 && Accept(rx, FragmentOf(m, i)) == (r, SeenAll(r.seen, Total(m)) && r.len > 0)
  {
    Coverage(m, i);
  }

  lemma AcceptOwned(rx: Rx, m: Message, i: nat)
    requires Sendable(m) && 0 < i < Total(m) <= 4 && rx.ftype == m.ftype && Safe(rx, m)
    ensures Safe(Accept(rx, FragmentOf(m, i)).0, m) && ExactAfter(rx, m, i)
  {
    AcceptPatches(rx, m, i);
    var r := PatchedIn(rx, m, i);
    if !rx.seen[0] {
      assert !r.seen[0];
    } else if j :| Total(m) <= j < MAX_FRAGS && rx.seen[j] {
      assert r.seen[j];
    } else {
      OwnedStays(rx, m, i);
    }
  }

  lemma OwnedStays(rx: Rx, m: Message, i: nat)
    requires Sendable(m) && 0 < i < Total(m) <= 4 && rx.ftype == m.ftype && Owned(rx, m)
    ensures
      var r := PatchedIn(rx, m, i);
      Owned(r, m) && (SeenAll(r.seen, Total(m)) && r.len > 0 ==> r.len == |m.body| && r.buf[..r.len] == m.body)
  {
    var t, r := Total(m), PatchedIn(rx, m, i);
    forall j | 0 <= j < t && (j == i || HasChunk(rx.buf, m, j))
      ensures HasChunk(r.buf, m, j)
    {
      PatchKeeps(rx.buf, m, i, j);
    }
    if SeenAll(r.seen, t) && r.len > 0 {
      forall j | 0 <= j < t
        ensures HasChunk(r.buf, m, j)
      {
        assert r.seen[j];
      }
      AllChunks(r.buf, m);
    }
  }

  lemma {:induction false} SafeMeansExact(rx: Rx, m: Message, indices: seq<nat>, i: nat)
    requires Sendable(m) && Indices(m, indices) && i < Total(m) <= 4 && Safe(rx, m)
    ensures Safe(AfterAll(rx, m, indices), m) && ExactAfter(AfterAll(rx, m, indices), m, i)
  {
    if indices != [] {
      SafeMeansExact(rx, m, indices[..|indices| - 1], indices[|indices| - 1]);
      AcceptSafe(AfterAll(rx, m, indices[..|indices| - 1]), m, indices[|indices| - 1]);
    }
    AcceptSafe(AfterAll(rx, m, indices), m, i);
  }

  /** The fragments from 1 up to `n`, except `skip`. */
  function Others(n: nat, skip: nat): (indices: seq<nat>)
    ensures forall k :: k in indices <==> 1 <= k < n && k != skip
  {
    if n <= 1 then []
    else if n - 1 == skip then Others(n - 1, skip)
    else Others(n - 1, skip) + [n - 1]
  }

  /** What is left after delivering some of those: the type, the skipped fragment, and the length
      unless the last fragment was among them. */
  ghost predicate Left(rx: Rx, r: Rx, m: Message, n: nat, skip: nat)
    requires Sendable(m) && skip < Total(m)
  {
    && r.ftype == rx.ftype
    && (HasChunk(r.buf, m, skip) <==> HasChunk(rx.buf, m, skip))
    && (forall k :: 0 <= k < MAX_FRAGS ==> (r.seen[k] <==> rx.seen[k] || (1 <= k < n && k != skip)))
    && (n < Total(m) ==> r.len == rx.len)
  }

  lemma {:induction false} OthersLeave(rx: Rx, m: Message, n: nat, skip: nat)
    requires Sendable(m) && n < Total(m) <= 4 && skip < Total(m) && rx.ftype == m.ftype
    ensures Indices(m, Others(n, skip)) && Left(rx, AfterAll(rx, m, Others(n, skip)), m, n, skip)
  {
    if n > 1 {
      OthersLeave(rx, m, n - 1, skip);
      if n - 1 != skip {
        OthersStep(rx, m, n, skip);
        LeftStep(rx, AfterAll(rx, m, Others(n - 1, skip)), m, n, skip);
      }
    }
  }

  lemma OthersStep(rx: Rx, m: Message, n: nat, skip: nat)
    requires Sendable(m) && 1 < n < Total(m) <= 4 && n - 1 != skip && Indices(m, Others(n - 1, skip))
    ensures Indices(m, Others(n, skip))
    ensures AfterAll(rx, m, Others(n, skip)) ==
      Accept(AfterAll(rx, m, Others(n - 1, skip)), FragmentOf(m, n - 1)).0
  {
    var before, all := Others(n - 1, skip), Others(n, skip);
    assert all[..|all| - 1] == before && all[|all| - 1] == n - 1;
  }

  lemma LeftStep(rx: Rx, r: Rx, m: Message, n: nat, skip: nat)
    requires Sendable(m) && 1 < n < Total(m) <= 4 && skip < Total(m) && n - 1 != skip && rx.ftype == m.ftype
    requires Left(rx, r, m, n - 1, skip)
    ensures Left(rx, Accept(r, FragmentOf(m, n - 1)).0, m, n, skip)
  {
    OneMore(r, m, n - 1, skip);
  }

  lemma OneMore(rx: Rx, m: Message, i: nat, skip: nat)
    requires Sendable(m) && 0 < i < Total(m) <= 4 && skip < Total(m) && skip != i && rx.ftype == m.ftype
    ensures
      var r := Accept(rx, FragmentOf(m, i)).0;
      && r.ftype == m.ftype && r.seen == rx.seen[i := true]
      && (HasChunk(r.buf, m, skip) <==> HasChunk(rx.buf, m, skip))
      && r.len == if i == Total(m) - 1 then |m.body| else rx.len
  {
    AcceptPatches(rx, m, i);
    Coverage(m, i);
    Coverage(m, skip);
    var r := PatchedIn(rx, m, i);
    forall k | Offset(m, skip) <= k < Offset(m, skip) + |Chunk(m, skip)|
      ensures r.buf[k] == rx.buf[k]
    {
    }
  }

  /** An unsafe buffer is completed wrongly by some sequence: everything but the stale fragment. */
  lemma UnsafeMeansInexact(rx: Rx, m: Message) returns (indices: seq<nat>, i: nat)
    requires Sendable(m) && Total(m) <= 4 && !Safe(rx, m)
    ensures Indices(m, indices) && i < Total(m) && !ExactAfter(AfterAll(rx, m, indices), m, i)
  {
    var t := Total(m);
    var stale := WhichIsStale(rx, m);
    i := if stale < t - 1 then t - 1 else t - 2;
    indices := Others(i, stale);
    OthersLeave(rx, m, i, stale);
    LastOne(AfterAll(rx, m, indices), m, i, stale);
  }

  lemma WhichIsStale(rx: Rx, m: Message) returns (stale: nat)
    requires Sendable(m) && Total(m) <= 4 && !Safe(rx, m)
    ensures stale < Total(m) && rx.seen[stale]
    ensures stale < Total(m) - 1 ==> !HasChunk(rx.buf, m, stale)
    ensures stale == Total(m) - 1 ==>
      Total(m) >= 3 && rx.len > 0 && (rx.len != |m.body| || !HasChunk(rx.buf, m, stale))
  {
    if j :| 0 <= j < Total(m) - 1 && rx.seen[j] && !HasChunk(rx.buf, m, j) {
      return j;
    }
    return Total(m) - 1;
  }

  // The fragment that completes, with the stale one still in place.
  lemma LastOne(rx: Rx, m: Message, i: nat, stale: nat)
    requires Sendable(m) && 0 < i < Total(m) <= 4 && stale < Total(m) && stale != i && rx.ftype == m.ftype
    requires forall k :: 0 <= k < MAX_FRAGS ==> (rx.seen[k] || k == i <==> k < Total(m))
    requires i == Total(m) - 1 || rx.len > 0
    requires !HasChunk(rx.buf, m, stale) || (i != Total(m) - 1 && rx.len != |m.body|)
    ensures !ExactAfter(rx, m, i)
  {
    OneMore(rx, m, i, stale);
    AcceptPatches(rx, m, i);
    WholeHasChunk(Accept(rx, FragmentOf(m, i)).0.buf, m, stale);
  }

  lemma WholeHasChunk(buf: Buffer, m: Message, j: nat)
    requires Sendable(m) && j < Total(m)
    ensures buf[..|m.body|] == m.body ==> HasChunk(buf, m, j)
  {
    Coverage(m, j);
    if buf[..|m.body|] == m.body {
      forall k | Offset(m, j) <= k < Offset(m, j) + |Chunk(m, j)|
        ensures buf[k] == m.body[k]
      {
        assert buf[..|m.body|][k] == m.body[k];
      }
    }
  }

  /** Reassembly from any buffer at all is exact if and only if the buffer is safe for the message. */
  lemma ExactIffSafe(rx: Rx, m: Message)
    requires Sendable(m)
    ensures Total(m) <= 4 && (Exact(rx, m) <==> Safe(rx, m))
  {
    Coverage(m, 0);
    if Safe(rx, m) {
      forall indices, i: nat | Indices(m, indices) && i < Total(m)
        ensures ExactAfter(AfterAll(rx, m, indices), m, i)
      {
        SafeMeansExact(rx, m, indices, i);
      }
    } else {
      var indices, i := UnsafeMeansInexact(rx, m);
    }
  }

  /** And once fragment 0 has arrived, it is exact from there on whatever the buffer held. */
  lemma OnlyTheMessage(rx: Rx, m: Message)
    requires Sendable(m)
    ensures Exact(Accept(rx, FragmentOf(m, 0)).0, m)
  {
    Coverage(m, 0);
    AcceptHolds(rx, m, 0);
    ExactIffSafe(Accept(rx, FragmentOf(m, 0)).0, m);
  }

  /** All fragments from the first on, `n` of them. */
  function Pass(n: nat): (indices: seq<nat>) {
    seq(n, k => k)
  }

  /** One pass delivered in full completes the message, whatever the buffer held before. */
  lemma FullPassCompletes(rx: Rx, m: Message)
    requires Sendable(m)
    ensures
      var t := Total(m);
      var (rx', done) := Accept(AfterAll(rx, m, Pass(t - 1)), FragmentOf(m, t - 1));
      done && rx'.len == |m.body| && rx'.buf[..rx'.len] == m.body
  {
    var t := Total(m);
    if t > 1 {
      PassSees(rx, m, t - 1);
    }
    LastOfPass(AfterAll(rx, m, Pass(t - 1)), m, t);
  }

  lemma LastOfPass(rx: Rx, m: Message, t: nat)
    requires Sendable(m) && t == Total(m) && (t == 1 || Holds(rx, m)) && FirstSeen(rx, t - 1)
    ensures
      var (rx', done) := Accept(rx, FragmentOf(m, t - 1));
      done && rx'.len == |m.body| && rx'.buf[..rx'.len] == m.body
  {
    PassAccepts(rx, m, t);
    AcceptHolds(rx, m, t - 1);
  }

  // The first `n` fragments, and nothing that is not the message's.
  ghost predicate Begun(rx: Rx, m: Message, n: nat)
    requires Sendable(m)
  {
    Holds(rx, m) && FirstSeen(rx, n)
  }

  lemma {:induction false} PassSees(rx: Rx, m: Message, n: nat)
    requires Sendable(m) && 1 <= n <= Total(m)
    ensures Begun(AfterAll(rx, m, Pass(n)), m, n)
  {
    if n > 1 {
      PassSees(rx, m, n - 1);
    } else {
      PassStarts(rx, m);
    }
    PassStep(rx, m, n);
    PassAccepts(AfterAll(rx, m, Pass(n - 1)), m, n);
  }

  lemma PassStarts(rx: Rx, m: Message)
    requires Sendable(m)
    ensures AfterAll(rx, m, Pass(0)) == rx && FirstSeen(rx, 0)
  {
  }

  lemma PassStep(rx: Rx, m: Message, n: nat)
    requires Sendable(m) && 1 <= n <= Total(m)
    ensures AfterAll(rx, m, Pass(n)) == Accept(AfterAll(rx, m, Pass(n - 1)), FragmentOf(m, n - 1)).0
  {
    assert Pass(n)[..n - 1] == Pass(n - 1) && Pass(n)[n - 1] == n - 1;
  }

  lemma PassAccepts(rx: Rx, m: Message, n: nat)
    requires Sendable(m) && 1 <= n <= Total(m)
    requires n == 1 || Holds(rx, m)
    requires FirstSeen(rx, n - 1)
    ensures Holds(Accept(rx, FragmentOf(m, n - 1)).0, m)
    ensures FirstSeen(Accept(rx, FragmentOf(m, n - 1)).0, n)
  {
    AcceptHolds(rx, m, n - 1);
    SeenOneMore(rx, Accept(rx, FragmentOf(m, n - 1)).0, m, n);
  }

  lemma SeenOneMore(rx: Rx, r: Rx, m: Message, n: nat)
    requires Sendable(m) && 1 <= n <= Total(m) && FirstSeen(rx, n - 1) && (n == 1 || rx.ftype == m.ftype)
    requires n <= MAX_FRAGS && r.seen == (if rx.ftype != m.ftype || n == 1 then NO_BITS else rx.seen)[n - 1 := true]
    ensures FirstSeen(r, n)
  {
  }

  /** What `Ready` rules out does go wrong: the first half of one message and the second of
      another of the same type are taken for a message that nobody sent. */
  lemma StaleHalfMixes(rx: Rx, a: Message, b: Message)
    requires Sendable(a) && Sendable(b) && a.ftype == b.ftype && a.secured == b.secured && |a.body| == |b.body|
    requires Total(a) == 2 && a.body[0] != b.body[0] && a.body[|a.body| - 1] != b.body[|b.body| - 1]
    ensures
      var (rx', done) := Accept(Accept(rx, FragmentOf(a, 0)).0, FragmentOf(b, 1));
      done && rx'.len == |b.body| && rx'.buf[..rx'.len] != b.body && rx'.buf[..rx'.len] != a.body
  {
    AcceptHolds(rx, a, 0);
    SecondHalf(Accept(rx, FragmentOf(a, 0)).0, a, b);
  }

  lemma SecondHalf(rx: Rx, a: Message, b: Message)
    requires Sendable(a) && Sendable(b) && a.ftype == b.ftype && a.secured == b.secured && |a.body| == |b.body|
    requires Total(a) == 2 && a.body[0] != b.body[0] && a.body[|a.body| - 1] != b.body[|b.body| - 1]
    requires Holds(rx, a) && rx.seen == NO_BITS[0 := true]
    ensures
      var (rx', done) := Accept(rx, FragmentOf(b, 1));
      done && rx'.len == |b.body| && rx'.buf[0] == a.body[0] && rx'.buf[|b.body| - 1] == b.body[|b.body| - 1]
  {
    Coverage(a, 0);
    Coverage(b, 1);
    assert HasChunk(rx.buf, a, 0);
    assert rx.buf[0] == a.body[0];
    PatchKeeps(rx.buf, b, 1, 1);
    var rx' := Accept(rx, FragmentOf(b, 1)).0;
    assert HasChunk(rx'.buf, b, 1);
  }

  // ----- the buffers as the firmware holds them -----

  /** `lg_frame_hdr_put`. */
  method HeaderPut(pdu: array<Byte>, h: Header) returns (len: nat)
    requires pdu.Length >= HDR_LEN_SEC && HeaderFits(h)
    modifies pdu
    ensures len == HeaderLen(Secured(h.fcf))
    ensures pdu[..HDR_LEN] == HeaderBytes(h) && pdu[HDR_LEN..] == old(pdu[HDR_LEN..])
  {
    pdu[0], pdu[1] := h.netid % 256, h.netid / 256 % 256;
    pdu[2], pdu[3] := h.fcf, h.frameSeq;
    pdu[4], pdu[5] := h.dst % 256, h.dst / 256 % 256;
    pdu[6], pdu[7] := h.src % 256, h.src / 256 % 256;
    return if Secured(h.fcf) then HDR_LEN_SEC else HDR_LEN;
  }

  // The fragment header and the data, behind a frame header of length `hdr`.
  method PutFragment(pdu: array<Byte>, hdr: nat, idx: Byte, total: Byte, data: seq<Byte>)
    requires hdr + FRAG_HDR_LEN + |data| <= pdu.Length
    modifies pdu
    ensures pdu[..hdr + FRAG_HDR_LEN + |data|] == old(pdu[..hdr]) + [idx, total] + data
  {
    pdu[hdr], pdu[hdr + 1] := idx, total;
    ghost var start := pdu[..hdr + FRAG_HDR_LEN];
    assert start == old(pdu[..hdr]) + [idx, total];
    CopyIn(pdu, hdr + FRAG_HDR_LEN, data);
    assert pdu[..hdr + FRAG_HDR_LEN + |data|] == start + data;
  }

  /** `build_fragment`, up to the sealing of a secured one. */
  method BuildFragment(m: Message, i: nat, h: Header, pdu: array<Byte>) returns (len: nat)
    requires Sendable(m) && i < Total(m) && HeaderFits(h) && h.fcf == FcfOf(m.ftype, m.secured)
    requires pdu.Length == PDU_MAX
    modifies pdu
    ensures len <= PDU_MAX && Total(m) < 256
    ensures pdu[..len] == FrameBytes(h, old(pdu[HDR_LEN..HDR_LEN_SEC]), FragmentOf(m, i))
  {
    Coverage(m, i);
    var off := i * Cap(m.secured);
    PlaceIsProduct(m.secured, i);
    var chunk := m.body[off..off + Min(Cap(m.secured), |m.body| - off)];
    assert chunk == Chunk(m, i);
    var hdr := HeaderPut(pdu, h);
    ghost var ctr := old(pdu[HDR_LEN..HDR_LEN_SEC]);
    assert pdu[HDR_LEN..][..4] == ctr;
    assert pdu[..hdr] == HeaderBytes(h) + if m.secured then ctr else [];
    PutFragment(pdu, hdr, i, Total(m), chunk);
    len := hdr + FRAG_HDR_LEN + |chunk|;
  }

  class Reassembler {
    const buf: array<Byte>
    var ftype: nat
    var seen: Bits
    var len: nat

    ghost predicate Valid()
      reads this
    {
      buf.Length == XFER_MAX
    }

    function State(): Rx
      requires Valid()
      reads this, buf
    {
      Rx(ftype, buf[..], seen, len)
    }

    constructor ()
      ensures Valid() && fresh(buf) && State() == Rx(0, ZEROS, NO_BITS, 0)
    {
      buf := new Byte[288](_ => 0);
      ftype, seen, len := 0, NO_BITS, 0;
    }

    /** `memset` of the buffer and the marks, then the new type. */
    method Clear(newType: nat)
      requires Valid()
      modifies this, buf
      ensures Valid() && State() == Rx(newType, ZEROS, NO_BITS, 0)
    {
      for k := 0 to XFER_MAX
        invariant forall j :: 0 <= j < k ==> buf[j] == 0
      {
        buf[k] := 0;
      }
      seen, len := NO_BITS, 0;
      ftype := newType;
      assert buf[..] == ZEROS;
    }

    /** `reassemble`, from where the frame has been decrypted. */
    method Reassemble(pdu: seq<Byte>) returns (complete: bool)
      requires Valid() && |pdu| >= HDR_LEN
      modifies this, buf
      ensures Valid()
      ensures (State(), complete) ==
        if Open(pdu).TooShort? then (old(State()), false) else Accept(old(State()), Open(pdu).f)
    {
      var secured := Secured(pdu[2]);
      var hdr := HeaderLen(secured);
      if |pdu| < hdr + FRAG_HDR_LEN {
        return false;
      }
      complete := Take(Fragment(pdu[2] % 16, secured, pdu[hdr], pdu[hdr + 1], pdu[hdr + FRAG_HDR_LEN..]));
    }

    method Take(f: Fragment) returns (complete: bool)
      requires Valid()
      modifies this, buf
      ensures Valid() && (State(), complete) == Accept(old(State()), f)
    {
      if f.total == 0 || f.total > MAX_FRAGS || f.idx >= f.total {
        return false;
      }
      var off := f.idx * Cap(f.secured);
      PlaceIsProduct(f.secured, f.idx);
      if off + |f.data| > XFER_MAX {
        return false;
      }
      if ftype != f.ftype || f.idx == 0 {
        Clear(f.ftype);
      }
      assert State() == Reset(old(State()), f);
      Put(f, off);
      complete := SeenAll(seen, f.total) && len > 0;
    }

    // The data goes to its place and is marked; the last fragment sets the length.
    method Put(f: Fragment, off: nat)
      requires Valid() && Acceptable(f) && off == Place(f.secured, f.idx)
      modifies this`seen, this`len, buf
      ensures Valid() && ftype == old(ftype) && buf[..] == Patched(old(buf[..]), off, f.data)
      ensures seen == old(seen)[f.idx := true] && len == if f.idx == f.total - 1 then off + |f.data| else old(len)
    {
      CopyIn(buf, off, f.data);
      seen := seen[f.idx := true];
      if f.idx == f.total - 1 {
        len := off + |f.data|;
      }
    }
  }
}

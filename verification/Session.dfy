/** Frames recovered from arbitrary fragments: the receive buffer of RopAsyncSession.cpp. */
module Session {
  import opened Options
  import opened Sequences

  type Byte = n: nat | n < 256

  const WRAP: nat := 0x1_0000_0000
  const HEADER: nat := 16
  const MAGIC_TAG: nat := 0x09182736

  /** A 32-bit little-endian field. */
  function Field(s: seq<Byte>, at: nat): (v: nat)
    requires at + 4 <= |s|
    ensures v < WRAP
  {
    var b0: nat, b1: nat, b2: nat, b3: nat := s[at], s[at + 1], s[at + 2], s[at + 3];
    b0 + 0x100 * b1 + 0x1_0000 * b2 + 0x100_0000 * b3
  }

  /** ModMsg: the header in front of the payload. */
  datatype Msg = Msg(tag: nat, source: nat, target: nat, len: nat)

  function Header(u: seq<Byte>): (m: Msg)
    requires |u| >= HEADER
    ensures m.len < WRAP
  {
    Msg(Field(u, 0), Field(u, 4), Field(u, 8), Field(u, 12))
  }

  /** The size of a message as unsigned arithmetic gives it. */
  function Total(m: Msg): nat {
    (m.len + HEADER) % WRAP
  }

  datatype Peeked = Incomplete | Corrupt | Ready(msg: Msg)

  /** What peeking at the buffered bytes finds. The length is looked at before the tag. */
  function Peek(u: seq<Byte>): Peeked {
    if |u| < HEADER then Incomplete
    else if |u| < Total(Header(u)) then Incomplete
    else if Header(u).tag != MAGIC_TAG then Corrupt
    else Ready(Header(u))
  }

  /** A message is handed out before all of it has arrived exactly when adding the header wraps around. */
  lemma ReadyMeansWhole(u: seq<Byte>)
    requires Peek(u).Ready?
    ensures HEADER + Peek(u).msg.len <= |u| || Peek(u).msg.len >= WRAP - HEADER
    ensures |u| < WRAP ==> (HEADER + Peek(u).msg.len <= |u| <==> Peek(u).msg.len < WRAP - HEADER)
  {
  }

  /** Sixteen bytes that are taken for a whole message of 4294967280 further bytes. */
  lemma WrappedLength()
    ensures var u: seq<Byte> := [0x36, 0x27, 0x18, 0x09, 0, 0, 0, 0, 0, 0, 0, 0, 0xF0, 0xFF, 0xFF, 0xFF];
            Peek(u) == Ready(Msg(MAGIC_TAG, 0, 0, 0xFFFF_FFF0)) && Total(Header(u)) == 0
  {
  }

  /** The bytes of a field, low-order byte first. */
  function FieldBytes(v: nat): seq<Byte>
    requires v < WRAP
  {
    [v % 0x100, v / 0x100 % 0x100, v / 0x1_0000 % 0x100, v / 0x100_0000]
  }

  /** A frame as the other side sends it: tag, source, target and length, then the payload. */
  function Frame(source: nat, target: nat, payload: seq<Byte>): seq<Byte>
    requires source < WRAP && target < WRAP && |payload| < WRAP
  {
    FieldBytes(0x0918_2736) + FieldBytes(source) + FieldBytes(target) + FieldBytes(|payload|) + payload
  }

  lemma FieldSum(v: nat)
    requires v < WRAP
    ensures v % 0x100 + 0x100 * (v / 0x100 % 0x100) + 0x1_0000 * (v / 0x1_0000 % 0x100) + 0x100_0000 * (v / 0x100_0000) == v
  {
    var a := v / 0x100;
    var b := a / 0x100;
    assert v / 0x1_0000 == b && v / 0x100_0000 == b / 0x100;
  }

  lemma FieldBack(s: seq<Byte>, at: nat, v: nat)
    requires v < WRAP && at + 4 <= |s| && s[at..at + 4] == FieldBytes(v)
    ensures Field(s, at) == v
  {
    FieldSum(v);
    var f := FieldBytes(v);
    assert s[at] == s[at..at + 4][0] == f[0] && s[at + 1] == s[at..at + 4][1] == f[1];
    assert s[at + 2] == s[at..at + 4][2] == f[2] && s[at + 3] == s[at..at + 4][3] == f[3];
  }

  /** Peeking at a frame, whatever follows it, gives each field where it was put. */
  lemma PeekBack(source: nat, target: nat, payload: seq<Byte>, behind: seq<Byte>)
    requires source < WRAP && target < WRAP && |payload| < WRAP - HEADER
    ensures Peek(Frame(source, target, payload) + behind) == Ready(Msg(0x0918_2736, source, target, |payload|))
    ensures WellFormed(Frame(source, target, payload))
  {
    hide Field, FieldBytes;
    var f := Frame(source, target, payload);
    Fields(f, f + behind, source, target, payload);
    Fields(f, f, source, target, payload);
  }

  lemma Fields(f: seq<Byte>, u: seq<Byte>, source: nat, target: nat, payload: seq<Byte>)
    requires source < WRAP && target < WRAP && |payload| < WRAP && f == Frame(source, target, payload) && f <= u
    ensures |f| == HEADER + |payload| && Header(u) == Msg(0x0918_2736, source, target, |payload|)
  {
    hide Field;
    FieldBack(u, 0, 0x0918_2736);
    FieldBack(u, 4, source);
    FieldBack(u, 8, target);
    FieldBack(u, 12, |payload|);
  }

  /** A wrong tag is noticed exactly when as many bytes have come as the header, wrapped around, asks for. */
  lemma WrongTagWaits(u: seq<Byte>)
    requires |u| >= 16 && u[..4] != [0x36, 0x27, 0x18, 0x09]
    ensures !Peek(u).Ready?
    ensures Peek(u).Corrupt? <==> |u| >= (Field(u, 12) + 16) % 0x1_0000_0000
  {
    assert u[..4] == [u[0], u[1], u[2], u[3]];
  }

  /** The bytes of a frame from module 1 to module 0x20. */
  lemma FrameBytes()
    ensures Frame(1, 0x20, [7]) == [0x36, 0x27, 0x18, 0x09, 1, 0, 0, 0, 0x20, 0, 0, 0, 1, 0, 0, 0, 7]
  {
  }

  // Draining: peek, take the message, discard it, until nothing is ready.

  function Frames(u: seq<Byte>): seq<seq<Byte>> {
    match Peek(u)
    case Ready(m) =>
      if Total(m) == 0 then [] else [u[..Total(m)]] + Frames(u[Total(m)..])
    case _ => []
  }

  function Rest(u: seq<Byte>): seq<Byte> {
    match Peek(u)
    case Ready(m) => if Total(m) == 0 then u else Rest(u[Total(m)..])
    case Corrupt => []
    case Incomplete => u
  }

  // Streams of well-formed frames.

  predicate WellFormed(f: seq<Byte>) {
    HEADER <= |f| < WRAP && Header(f).tag == MAGIC_TAG && Header(f).len + HEADER == |f|
  }

  predicate AllWellFormed(fs: seq<seq<Byte>>) {
    forall i :: 0 <= i < |fs| ==> WellFormed(fs[i])
  }

  /** u is the first n frames and then a proper part of the next one, or nothing after the last. */
  ghost predicate Cut(fs: seq<seq<Byte>>, u: seq<Byte>, n: nat, rest: seq<Byte>) {
    n <= |fs| && u == Joined(fs[..n]) + rest && if n < |fs| then rest < fs[n] else rest == []
  }

  lemma PeekFrame(f: seq<Byte>, u: seq<Byte>)
    requires WellFormed(f) && f <= u
    ensures Peek(u) == Ready(Header(f)) && Total(Header(f)) == |f| > 0
  {
    assert Header(u) == Header(f);
  }

  lemma WholeFrame(f: seq<Byte>, u: seq<Byte>)
    requires WellFormed(f) && f <= u
    ensures Frames(u) == [f] + Frames(u[|f|..]) && Rest(u) == Rest(u[|f|..])
  {
    PeekFrame(f, u);
    hide Peek, WellFormed, Header, Total;
    assert u[..|f|] == f;
  }

  lemma PartOfFrame(f: seq<Byte>, u: seq<Byte>)
    requires WellFormed(f) && u < f
    ensures Frames(u) == [] && Rest(u) == u && Peek(u) == Incomplete
  {
    if |u| >= HEADER {
      assert Header(u) == Header(f);
    }
  }

  lemma Beginnings<T>(a: seq<T>, b: seq<T>, u: seq<T>)
    requires u <= a + b
    ensures |u| < |a| ==> u < a
    ensures |a| <= |u| ==> a <= u && u[|a|..] <= b && u == a + u[|a|..]
  {
    assert u == (a + b)[..|u|];
  }

  /** Draining any beginning of a stream gives its complete frames and keeps the incomplete one. */
  lemma {:induction false} DrainBeginning(fs: seq<seq<Byte>>, u: seq<Byte>) returns (n: nat)
    requires AllWellFormed(fs) && u <= Joined(fs)
    ensures Cut(fs, u, n, Rest(u)) && Frames(u) == fs[..n]
  {
    hide Peek, Frames, Rest, WellFormed;
    if fs == [] {
      n := 0;
      NothingReady();
    } else {
      var f := fs[0];
      Beginnings(f, Joined(fs[1..]), u);
      if |u| < |f| {
        n := 0;
        PartOfFrame(f, u);
      } else {
        WholeFrame(f, u);
        var k := DrainBeginning(fs[1..], u[|f|..]);
        n := k + 1;
        OneMoreFrame(fs, k);
      }
    }
  }

  lemma NothingReady()
    ensures Frames([]) == [] && Rest([]) == [] && Peek([]) == Incomplete
  {
  }

  lemma OneMoreFrame(fs: seq<seq<Byte>>, k: nat)
    requires k < |fs|
    ensures fs[..k + 1] == [fs[0]] + fs[1..][..k]
    ensures Joined(fs[..k + 1]) == fs[0] + Joined(fs[1..][..k])
  {
    assert fs[..k + 1][1..] == fs[1..][..k];
  }

  /** After every chunk the buffer is drained. */
  function Delivered(residue: seq<Byte>, chunks: seq<seq<Byte>>): seq<seq<Byte>>
    decreases |chunks|
  {
    if chunks == [] then []
    else Frames(residue + chunks[0]) + Delivered(Rest(residue + chunks[0]), chunks[1..])
  }

  function Residue(residue: seq<Byte>, chunks: seq<seq<Byte>>): seq<Byte>
    decreases |chunks|
  {
    if chunks == [] then residue else Residue(Rest(residue + chunks[0]), chunks[1..])
  }

  /**
   * Fragmentation independence: however the beginning of a stream is cut into chunks, exactly the
   * frames that are complete have been delivered, in order, and the residue is a proper part of the next.
   */
  lemma {:induction false} AnyFragmentation(fs: seq<seq<Byte>>, residue: seq<Byte>, chunks: seq<seq<Byte>>) returns (n: nat)
    requires AllWellFormed(fs) && residue + Joined(chunks) <= Joined(fs)
    requires fs != [] ==> |residue| < |fs[0]|
    ensures Cut(fs, residue + Joined(chunks), n, Residue(residue, chunks))
    ensures Delivered(residue, chunks) == fs[..n]
    decreases |chunks|
  {
    hide *;
    if chunks == [] {
      n := 0;
      NoChunks(fs, residue);
    } else {
      var u := residue + chunks[0];
      ChunkTaken(residue, chunks, Joined(fs));
      var k := DrainBeginning(fs, u);
      var rest := Rest(u);
      CutRest(fs, u, k, rest, Joined(chunks[1..]));
      LaterFrames(fs, k);
      var j := AnyFragmentation(fs[k..], rest, chunks[1..]);
      n := k + j;
      CutFurther(fs, k, rest + Joined(chunks[1..]), j, Residue(rest, chunks[1..]));
      assert Joined(fs[..k]) + (rest + Joined(chunks[1..])) == residue + Joined(chunks);
      assert fs[..n] == fs[..k] + fs[k..][..j];
    }
  }

  lemma NoChunks(fs: seq<seq<Byte>>, residue: seq<Byte>)
    requires residue + Joined([]) <= Joined(fs) && (fs != [] ==> |residue| < |fs[0]|)
    ensures Cut(fs, residue + Joined([]), 0, Residue(residue, [])) && Delivered(residue, []) == fs[..0]
  {
    assert residue + Joined([]) == residue;
    if fs != [] {
      Beginnings(fs[0], Joined(fs[1..]), residue);
    }
  }

  lemma ChunkTaken(residue: seq<Byte>, chunks: seq<seq<Byte>>, stream: seq<Byte>)
    requires chunks != [] && residue + Joined(chunks) <= stream
    ensures var u := residue + chunks[0];
            && u <= stream && u + Joined(chunks[1..]) == residue + Joined(chunks)
            && Delivered(residue, chunks) == Frames(u) + Delivered(Rest(u), chunks[1..])
            && Residue(residue, chunks) == Residue(Rest(u), chunks[1..])
  {
    hide Frames, Rest;
    var u := residue + chunks[0];
    assert u + Joined(chunks[1..]) == residue + Joined(chunks);
    assert u == (u + Joined(chunks[1..]))[..|u|];
  }

  lemma LaterFrames(fs: seq<seq<Byte>>, k: nat)
    requires AllWellFormed(fs) && k <= |fs|
    ensures AllWellFormed(fs[k..])
  {
  }

  lemma CutRest(fs: seq<seq<Byte>>, u: seq<Byte>, k: nat, rest: seq<Byte>, later: seq<Byte>)
    requires Cut(fs, u, k, rest) && u + later <= Joined(fs)
    ensures k <= |fs| && u == Joined(fs[..k]) + rest && rest + later <= Joined(fs[k..])
    ensures fs[k..] != [] ==> |rest| < |fs[k..][0]|
  {
    JoinedSplit(fs, k);
    assert u + later == Joined(fs[..k]) + (rest + later);
    Beginnings(Joined(fs[..k]), Joined(fs[k..]), u + later);
  }

  lemma CutFurther(fs: seq<seq<Byte>>, k: nat, v: seq<Byte>, j: nat, rest: seq<Byte>)
    requires k <= |fs| && Cut(fs[k..], v, j, rest)
    ensures Cut(fs, Joined(fs[..k]) + v, k + j, rest) && k + j <= |fs|
  {
    FragmentsMeet(fs, k, j);
  }

  lemma FragmentsMeet(fs: seq<seq<Byte>>, k: nat, j: nat)
    requires k + j <= |fs|
    ensures fs[..k + j] == fs[..k] + fs[k..][..j]
    ensures Joined(fs[..k + j]) == Joined(fs[..k]) + Joined(fs[k..][..j])
  {
    JoinedSplit(fs[..k + j], k);
    assert fs[..k + j][..k] == fs[..k] && fs[..k + j][k..] == fs[k..][..j];
  }

  /** Two ways of cutting the same bytes deliver the same frames and keep the same residue. */
  lemma SameBytesSameFrames(fs: seq<seq<Byte>>, a: seq<seq<Byte>>, b: seq<seq<Byte>>)
    requires AllWellFormed(fs) && Joined(a) == Joined(b) <= Joined(fs)
    ensures Delivered([], a) == Delivered([], b) && Residue([], a) == Residue([], b)
  {
    assert [] + Joined(a) == Joined(a) && [] + Joined(b) == Joined(b);
    var n := AnyFragmentation(fs, [], a);
    var m := AnyFragmentation(fs, [], b);
    CutOnce(fs, Joined(a), n, Residue([], a), m, Residue([], b));
  }

  lemma CutBefore(fs: seq<seq<Byte>>, u: seq<Byte>, n: nat, r: seq<Byte>, m: nat)
    requires Cut(fs, u, n, r) && n < m <= |fs|
    ensures |u| < |Joined(fs[..m])|
  {
    FragmentsMeet(fs, n, m - n);
    assert fs[n..][..m - n][0] == fs[n];
  }

  /** There is only one place to cut a stream after a given number of bytes. */
  lemma CutOnce(fs: seq<seq<Byte>>, u: seq<Byte>, n: nat, r: seq<Byte>, m: nat, q: seq<Byte>)
    requires Cut(fs, u, n, r) && Cut(fs, u, m, q)
    ensures n == m && r == q
  {
    if n < m {
      CutBefore(fs, u, n, r, m);
      assert false;
    }
    if m < n {
      CutBefore(fs, u, m, q, n);
      assert false;
    }
  }

  // The buffer.

  class RopSession {
    const data: array<Byte>
    var head: nat
    var tail: nat

    /** m_HeadPos never leaves 0: discarding moves the data instead. */
    ghost predicate Valid()
      reads this
    {
      head == 0 && tail <= data.Length < WRAP
    }

    ghost function Contents(): seq<Byte>
      reads this, data
      requires Valid()
    {
      data[head..tail]
    }

    constructor (size: nat)
      requires size < WRAP
      ensures Valid() && fresh(data) && data.Length == size && Contents() == []
    {
      data := new Byte[size];
      head, tail := 0, 0;
    }

    /** Takes all of the bytes or, when they do not fit, none. */
    method InputData(buf: array<Byte>, len: nat) returns (taken: nat)
      requires Valid() && len <= buf.Length && buf != data
      modifies `tail, data
      ensures Valid()
      ensures taken == if |old(Contents())| + len <= data.Length then len else 0
      ensures Contents() == old(Contents()) + buf[..taken]
    {
      var used := tail - head;
      var available := data.Length - used;
      if len > available {
        return 0;
      }
      forall i | 0 <= i < len {
        data[tail + i] := buf[i];
      }
      tail := tail + len;
      taken := len;
    }

    /** A message if one is ready; a wrong tag empties the buffer. */
    method PeekMsg() returns (r: Option<Msg>)
      requires Valid()
      modifies this
      ensures Valid()
      ensures r == match Peek(old(Contents())) case Ready(m) => Some(m) case _ => None
      ensures Contents() == if Peek(old(Contents())).Corrupt? then [] else old(Contents())
    {
      var used := tail - head;
      if used < HEADER {
        return None;
      }
      var m := Msg(FieldAt(head), FieldAt(head + 4), FieldAt(head + 8), FieldAt(head + 12));
      assert m == Header(Contents());
      if used < (m.len + HEADER) % WRAP {
        return None;
      }
      if m.tag != MAGIC_TAG {
        Reset();
        return None;
      }
      r := Some(m);
    }

    function FieldAt(at: nat): (v: nat)
      reads this, data
      requires Valid() && at + 4 <= tail
      ensures v == Field(Contents(), at)
    {
      var b0: nat, b1: nat, b2: nat, b3: nat := data[at], data[at + 1], data[at + 2], data[at + 3];
      b0 + 0x100 * b1 + 0x1_0000 * b2 + 0x100_0000 * b3
    }

    method DiscardData(len: nat) returns (gone: nat)
      requires Valid()
      modifies `tail, data
      ensures Valid()
      ensures gone == if len <= |old(Contents())| then len else 0
      ensures Contents() == old(Contents())[gone..]
    {
      var used := tail - head;
      if used < len {
        return 0;
      }
      tail := tail - len;
      used := tail - head;
      if used > 0 {
        forall i | 0 <= i < used {
          data[head + i] := data[head + len + i];
        }
      }
      gone := len;
    }

    method Reset()
      modifies this
      ensures head == tail == 0
    {
      tail, head := 0, 0;
    }

    lemma InFront(m: Msg, total: nat)
      requires Valid() && total == (m.len + HEADER) % WRAP && total <= |Contents()|
      ensures total == Total(m) && 0 <= head <= head + total <= data.Length
      ensures data[head..head + total] == Contents()[..total]
    {
    }

    /** The bytes of a message are read and then discarded. */
    method Take(m: Msg) returns (msg: seq<Byte>)
      requires Valid() && Total(m) <= |Contents()|
      modifies `tail, data
      ensures Valid() && msg == old(Contents())[..Total(m)] && Contents() == old(Contents())[Total(m)..]
    {
      var total := (m.len + HEADER) % WRAP;
      InFront(m, total);
      msg := data[head..head + total];
      var gone := DiscardData(total);
    }

    /** One chunk of a stream: the bytes go in, and every message that is ready is taken and discarded. */
    method Receive(buf: array<Byte>, len: nat, ghost fs: seq<seq<Byte>>) returns (msgs: seq<seq<Byte>>)
      requires Valid() && len <= buf.Length && buf != data
      requires |Contents()| + len <= data.Length
      requires AllWellFormed(fs) && Contents() + buf[..len] <= Joined(fs)
      modifies this, data
      ensures Valid() && Contents() == Rest(old(Contents()) + buf[..len])
      ensures msgs == Frames(old(Contents()) + buf[..len])
    {
      hide *;
      ghost var u := Contents() + buf[..len];
      var taken := InputData(buf, len);
      msgs := [];
      ghost var v, gs := u, fs;
      assert msgs + Frames(v) == Frames(u);
      var r := PeekMsg();
      while r.Some?
        invariant Valid() && AllWellFormed(gs) && v <= Joined(gs)
        invariant msgs + Frames(v) == Frames(u) && Rest(v) == Rest(u)
        invariant r == match Peek(v) case Ready(m) => Some(m) case _ => None
        invariant Contents() == if Peek(v).Corrupt? then [] else v
        decreases |v|
      {
        MessageOfStream(gs, v);
        var msg := Take(r.value);
        Reassociate(msgs, [msg], Frames(v[Total(r.value)..]));
        msgs := msgs + [msg];
        v, gs := v[Total(r.value)..], gs[1..];
        r := PeekMsg();
      }
      NoMessage(v);
    }
  }

  /** Every chunk finds room in a buffer of that size when it arrives. */
  predicate AllFit(size: nat, residue: seq<Byte>, chunks: seq<seq<Byte>>)
    decreases |chunks|
  {
    chunks == [] ||
    (|residue| + |chunks[0]| <= size && AllFit(size, Rest(residue + chunks[0]), chunks[1..]))
  }

  /** A connection: the chunks of a stream arrive one by one, and the frames come out. */
  method ReceiveAll(session: RopSession, chunks: seq<seq<Byte>>, ghost fs: seq<seq<Byte>>)
    returns (msgs: seq<seq<Byte>>, ghost n: nat)
    requires session.Valid() && session.Contents() == []
    requires AllWellFormed(fs) && Joined(chunks) <= Joined(fs) && AllFit(session.data.Length, [], chunks)
    modifies session, session.data
    ensures session.Valid() && Cut(fs, Joined(chunks), n, session.Contents())
    ensures msgs == fs[..n]
  {
    hide *;
    assert [] + Joined(chunks) == Joined(chunks);
    FramesNotEmpty(fs);
    n := AnyFragmentation(fs, [], chunks);
    msgs := [];
    ghost var gs, rest := fs, chunks;
    var k := 0;
    assert chunks[0..] == chunks;
    while k < |chunks|
      invariant k <= |chunks| && session.Valid()
      invariant AllWellFormed(gs) && session.Contents() + Joined(chunks[k..]) <= Joined(gs)
      invariant AllFit(session.data.Length, session.Contents(), chunks[k..])
      invariant msgs + Delivered(session.Contents(), chunks[k..]) == Delivered([], chunks)
      invariant Residue(session.Contents(), chunks[k..]) == Residue([], chunks)
    {
      ghost var residue, later := session.Contents(), chunks[k..];
      assert later[0] == chunks[k] && later[1..] == chunks[k + 1..];
      ChunkTaken(residue, later, Joined(gs));
      ChunkFits(session.data.Length, residue, later);
      var buf := new Byte[|chunks[k]|](i requires 0 <= i < |chunks[k]| => chunks[k][i]);
      assert buf[..|chunks[k]|] == chunks[k];
      ghost var m := DrainBeginning(gs, residue + chunks[k]);
      CutRest(gs, residue + chunks[k], m, Rest(residue + chunks[k]), Joined(chunks[k + 1..]));
      var more := session.Receive(buf, |chunks[k]|, gs);
      Reassociate(msgs, more, Delivered(session.Contents(), chunks[k + 1..]));
      msgs := msgs + more;
      LaterFrames(gs, m);
      gs := gs[m..];
      k := k + 1;
    }
    NothingMore(session.Contents());
    assert chunks[k..] == [];
  }

  lemma FramesNotEmpty(fs: seq<seq<Byte>>)
    requires AllWellFormed(fs)
    ensures fs != [] ==> 0 < |fs[0]|
  {
  }

  lemma ChunkFits(size: nat, residue: seq<Byte>, chunks: seq<seq<Byte>>)
    requires chunks != [] && AllFit(size, residue, chunks)
    ensures |residue| + |chunks[0]| <= size && AllFit(size, Rest(residue + chunks[0]), chunks[1..])
  {
  }

  lemma NothingMore(residue: seq<Byte>)
    ensures Delivered(residue, []) == [] && Residue(residue, []) == residue
  {
  }

  /** In a stream, a message that is ready is a whole frame. */
  lemma MessageOfStream(gs: seq<seq<Byte>>, v: seq<Byte>)
    requires AllWellFormed(gs) && v <= Joined(gs) && Peek(v).Ready?
    ensures gs != [] && AllWellFormed(gs[1..])
    ensures var t := Total(Peek(v).msg);
            && 0 < t <= |v| && v[..t] == gs[0] && v[t..] <= Joined(gs[1..])
            && Frames(v) == [v[..t]] + Frames(v[t..]) && Rest(v) == Rest(v[t..])
  {
    hide Frames, Rest, Peek, WellFormed, Header, Total;
    if gs == [] {
      NothingReady();
    } else {
      var f := gs[0];
      Beginnings(f, Joined(gs[1..]), v);
      if |v| < |f| {
        PartOfFrame(f, v);
      } else {
        PeekFrame(f, v);
        WholeFrame(f, v);
      }
    }
  }

  lemma NoMessage(v: seq<Byte>)
    requires !Peek(v).Ready?
    ensures Frames(v) == [] && Rest(v) == if Peek(v).Corrupt? then [] else v
  {
  }
}

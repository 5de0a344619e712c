/** The byte ring of iobuffer.c, shared by one writer and one reader without a lock. */
module IoBuffer {
  /** Size is |buf|; produce and consume are the next positions to write and to read. */
  datatype Ring = Ring(buf: seq<bv8>, produce: int, consume: int)

  ghost predicate RingOk(r: Ring) {
    0 <= r.produce < |r.buf| && 0 <= r.consume < |r.buf|
  }

  function Wrap(i: int, size: int): int {
    if i >= size then i - size else i
  }

  function Avail(r: Ring): int {
    if r.produce >= r.consume then r.produce - r.consume else r.produce - r.consume + |r.buf|
  }

  /** The queued bytes, oldest first. */
  function Queue(r: Ring): (q: seq<bv8>)
    requires RingOk(r)
    ensures |q| == Avail(r) < |r.buf|
    ensures forall i :: 0 <= i < |q| ==> q[i] == r.buf[Wrap(r.consume + i, |r.buf|)]
  {
    seq(Avail(r), i requires 0 <= i < Avail(r) => r.buf[Wrap(r.consume + i, |r.buf|)])
  }

  /** Storing at the produce position disturbs no queued byte. */
  lemma StoreAside(r: Ring, b: bv8)
    requires RingOk(r)
    ensures Queue(r.(buf := r.buf[r.produce := b])) == Queue(r)
  {
    hide Queue;
    var q, q' := Queue(r), Queue(r.(buf := r.buf[r.produce := b]));
    forall i | 0 <= i < |q| ensures q'[i] == q[i] {
      assert Wrap(r.consume + i, |r.buf|) != r.produce;
    }
  }

  /** Publishing the next produce index appends the byte that stands at the old one. */
  lemma PublishWrite(r: Ring)
    requires RingOk(r) && Wrap(r.produce + 1, |r.buf|) != r.consume
    ensures Queue(r.(produce := Wrap(r.produce + 1, |r.buf|))) == Queue(r) + [r.buf[r.produce]]
  {
    hide Queue;
    var q, q' := Queue(r), Queue(r.(produce := Wrap(r.produce + 1, |r.buf|)));
    forall i | 0 <= i < |q'| ensures q'[i] == (q + [r.buf[r.produce]])[i] {}
  }

  /** Publishing the next consume index drops the oldest byte. */
  lemma PublishRead(r: Ring)
    requires RingOk(r) && r.consume != r.produce
    ensures Queue(r) != [] && Queue(r)[0] == r.buf[r.consume]
    ensures Queue(r.(consume := Wrap(r.consume + 1, |r.buf|))) == Queue(r)[1..]
  {
    hide Queue;
    var q, q' := Queue(r), Queue(r.(consume := Wrap(r.consume + 1, |r.buf|)));
    forall i | 0 <= i < |q'| ensures q'[i] == q[1..][i] {
      assert q[1..][i] == q[i + 1];
    }
  }

  /** Queued bytes whose places do not wrap stand in a row. */
  lemma RunInRow(r: Ring, offset: nat, n: nat, at: int)
    requires RingOk(r) && offset + n <= Avail(r) && 0 <= at && at + n <= |r.buf|
    requires at == r.consume + offset || at == r.consume + offset - |r.buf|
    ensures |Queue(r)| == Avail(r) && r.buf[at..at + n] == Queue(r)[offset..offset + n]
  {
    hide Queue;
    var q := Queue(r);
    var got, want := r.buf[at..at + n], q[offset..offset + n];
    forall i | 0 <= i < n ensures got[i] == want[i] {
      assert q[offset + i] == r.buf[Wrap(r.consume + (offset + i), |r.buf|)];
    }
  }

  // ---------------------------------------------------------------- interleaved micro-steps

  /** The writer between its accesses: before the fullness check, after it with the next index computed,
      after storing the byte. */
  datatype Writer = WIdle | WChecked(next: int) | WStored(next: int, byte: bv8)

  /** The reader: before the emptiness check, after it with its index, after loading the byte. */
  datatype Reader = RIdle | RChecked(index: int) | RLoaded(next: int)

  /** written: bytes whose index has been published; read: bytes the reader has loaded. */
  datatype State = State(ring: Ring, w: Writer, r: Reader, written: seq<bv8>, read: seq<bv8>)

  datatype Step = WCheck | WStore(byte: bv8) | WPublish | RCheck | RLoad | RPublish

  predicate Enabled(s: State, step: Step) {
    match step
    case WCheck => s.w.WIdle?
    case WStore(_) => s.w.WChecked?
    case WPublish => s.w.WStored?
    case RCheck => s.r.RIdle?
    case RLoad => s.r.RChecked?
    case RPublish => s.r.RLoaded?
  }

  /** One access to shared memory. A failed check leaves its side idle. */
  function Apply(s: State, step: Step): State
    requires RingOk(s.ring) && Enabled(s, step) && (s.r.RChecked? ==> 0 <= s.r.index < |s.ring.buf|)
  {
    var ring := s.ring;
    match step
    case WCheck =>
      var next := Wrap(ring.produce + 1, |ring.buf|);
      if next == ring.consume then s else s.(w := WChecked(next))
    case WStore(byte) => s.(ring := ring.(buf := ring.buf[ring.produce := byte]), w := WStored(s.w.next, byte))
    case WPublish => s.(ring := ring.(produce := s.w.next), w := WIdle, written := s.written + [s.w.byte])
    case RCheck => if ring.consume == ring.produce then s else s.(r := RChecked(ring.consume))
    case RLoad => s.(r := RLoaded(Wrap(s.r.index + 1, |ring.buf|)), read := s.read + [ring.buf[s.r.index]])
    case RPublish => s.(ring := ring.(consume := s.r.next), r := RIdle)
  }

  /** Bytes taken out of the queue for good. */
  ghost function Taken(s: State): seq<bv8> {
    if s.r.RLoaded? && s.read != [] then s.read[..|s.read| - 1] else s.read
  }

  ghost predicate WriterOk(s: State)
    requires RingOk(s.ring)
  {
    s.w.WIdle? ||
    (s.w.next == Wrap(s.ring.produce + 1, |s.ring.buf|) != s.ring.consume
     && (s.w.WStored? ==> s.ring.buf[s.ring.produce] == s.w.byte))
  }

  ghost predicate ReaderOk(s: State)
    requires RingOk(s.ring)
  {
    match s.r
    case RIdle => true
    case RChecked(index) => index == s.ring.consume != s.ring.produce
    case RLoaded(next) =>
      && next == Wrap(s.ring.consume + 1, |s.ring.buf|) && s.ring.consume != s.ring.produce
      && s.read != [] && s.read[|s.read| - 1] == s.ring.buf[s.ring.consume]
  }

  /** Everything published and not yet taken is in the ring, in order. */
  ghost predicate Inv(s: State) {
    && RingOk(s.ring) && WriterOk(s) && ReaderOk(s)
    && s.written == Taken(s) + Queue(s.ring)
  }

  lemma WriteStepInv(s: State, step: Step)
    requires Inv(s) && Enabled(s, step) && (step.WCheck? || step.WStore? || step.WPublish?)
    ensures Inv(Apply(s, step))
  {
    hide Queue;
    match step
    case WCheck =>
    case WStore(byte) => StoreAside(s.ring, byte);
    case WPublish => PublishWrite(s.ring);
  }

  lemma ReadStepInv(s: State, step: Step)
    requires Inv(s) && Enabled(s, step) && (step.RCheck? || step.RLoad? || step.RPublish?)
    ensures Inv(Apply(s, step))
  {
    hide Queue;
    match step
    case RCheck =>
    case RLoad => Snoc(s.read, s.ring.buf[s.r.index]);
    case RPublish => ReadPublishInv(s);
  }

  lemma ReadPublishInv(s: State)
    requires Inv(s) && s.r.RLoaded?
    ensures Inv(Apply(s, RPublish))
  {
    hide Queue;
    PublishRead(s.ring);
    MoveOver(s.read, Queue(s.ring));
  }

  lemma Snoc(x: seq<bv8>, b: bv8)
    ensures (x + [b])[..|x + [b]| - 1] == x && (x + [b])[|x + [b]| - 1] == b
  {
  }

  /** The loaded byte is the head of the queue: taking it moves it from one side to the other. */
  lemma MoveOver(x: seq<bv8>, q: seq<bv8>)
    requires x != [] && q != [] && x[|x| - 1] == q[0]
    ensures x[..|x| - 1] + q == x + q[1..]
  {
    assert x == x[..|x| - 1] + [q[0]];
    assert q == [q[0]] + q[1..];
  }

  ghost predicate Legal(s: State, steps: seq<Step>)
    requires Inv(s)
    decreases |steps|
  {
    hide Queue;
    steps == [] || (Enabled(s, steps[0]) && (StepInv(s, steps[0]); Legal(Apply(s, steps[0]), steps[1..])))
  }

  lemma StepInv(s: State, step: Step)
    requires Inv(s) && Enabled(s, step)
    ensures Inv(Apply(s, step))
  {
    hide Inv, Apply;
    if step.WCheck? || step.WStore? || step.WPublish? {
      WriteStepInv(s, step);
    } else {
      ReadStepInv(s, step);
    }
  }

  ghost function Run(s: State, steps: seq<Step>): (s': State)
    requires Inv(s) && Legal(s, steps)
    ensures Inv(s')
    decreases |steps|
  {
    hide Inv, Apply, Queue;
    if steps == [] then s else (StepInv(s, steps[0]); Run(Apply(s, steps[0]), steps[1..]))
  }

  /** exos_io_buffer_create */
  function Initial(buf: seq<bv8>): State {
    State(Ring(buf, 0, 0), WIdle, RIdle, [], [])
  }

  lemma InitialInv(buf: seq<bv8>)
    requires buf != []
    ensures Inv(Initial(buf))
  {
  }

  /** For every interleaving of the writer's and the reader's accesses: what was read is a prefix of what
      was written, and at most Size - 1 bytes are in flight. */
  lemma ReadsArePrefix(buf: seq<bv8>, steps: seq<Step>)
    requires buf != [] && (InitialInv(buf); Legal(Initial(buf), steps))
    ensures (InitialInv(buf);
             var s := Run(Initial(buf), steps);
             s.read <= s.written && |s.written| - |s.read| <= |s.ring.buf| - 1)
  {
    hide Queue, Legal, Run, Initial;
    InitialInv(buf);
    var s := Run(Initial(buf), steps);
    if s.r.RLoaded? {
      PublishRead(s.ring);
      var n := |s.read| - 1;
      assert s.read == s.read[..n] + [s.read[n]];
      assert s.written[n] == Queue(s.ring)[0];
    }
  }

  // ---------------------------------------------------------------- the functions of iobuffer.c

  class Buffer {
    const buf: array<bv8>
    var produce: int
    var consume: int

    ghost predicate Valid()
      reads this
    {
      0 <= produce < buf.Length && 0 <= consume < buf.Length
    }

    ghost function View(): Ring
      reads this, buf
    {
      Ring(buf[..], produce, consume)
    }

    ghost function Contents(): (q: seq<bv8>)
      requires Valid()
      reads this, buf
      ensures |q| < buf.Length
    {
      Queue(View())
    }

    constructor (buf: array<bv8>)
      requires buf.Length > 0
      ensures this.buf == buf && Valid() && Contents() == []
    {
      this.buf := buf;
      produce, consume := 0, 0;
    }

    /** exos_io_buffer_write: as many bytes as fit, in order. */
    method Write(data: seq<bv8>) returns (done: nat)
      requires Valid()
      modifies this, buf
      ensures Valid() && done <= |data|
      ensures Contents() == old(Contents()) + data[..done]
      ensures done < |data| ==> |Contents()| == buf.Length - 1
    {
      hide Queue;
      done := 0;
      assert data[..0] == [];
      while done < |data|
        invariant Valid() && done <= |data| && Contents() == old(Contents()) + data[..done]
      {
        var index := produce + 1;
        if index == buf.Length { index := 0; }
        if index == consume {
          break;
        }
        Put(data[done], index);
        done := done + 1;
        assert data[..done] == data[..done - 1] + [data[done - 1]];
      }
    }

    /** Store, then publish. */
    method Put(byte: bv8, index: int)
      requires Valid() && index == Wrap(produce + 1, buf.Length) && index != consume
      modifies this, buf
      ensures Valid() && Contents() == old(Contents()) + [byte]
    {
      hide Queue;
      StoreAside(View(), byte);
      buf[produce] := byte;
      assert View() == old(View()).(buf := old(buf[..])[produce := byte]);
      PublishWrite(View());
      produce := index;
    }

    /** exos_io_buffer_read: as many bytes as there are, oldest first. */
    method Read(length: nat) returns (data: seq<bv8>)
      requires Valid()
      modifies this
      ensures Valid() && |data| <= length
      ensures old(Contents()) == data + Contents()
      ensures |data| < length ==> Contents() == []
    {
      hide Queue;
      data := [];
      while |data| < length
        invariant Valid() && |data| <= length && old(Contents()) == data + Contents()
        decreases length - |data|
      {
        if consume == produce {
          break;
        }
        ghost var q := Contents();
        var byte := Get();
        assert q == [byte] + Contents();
        assert data + q == data + [byte] + Contents();
        data := data + [byte];
      }
    }

    /** Load, then publish. */
    method Get() returns (byte: bv8)
      requires Valid() && consume != produce
      modifies this
      ensures Valid() && old(Contents()) == [byte] + Contents()
    {
      hide Queue;
      PublishRead(View());
      byte := buf[consume];
      var index := consume + 1;
      if index == buf.Length { index := 0; }
      consume := index;
    }

    /** exos_io_buffer_avail */
    method Available() returns (n: int)
      requires Valid()
      ensures n == |Contents()|
    {
      n := produce - consume;
      if n < 0 { n := n + buf.Length; }
    }

    /** exos_io_buffer_discard: drops exactly the oldest bytes. */
    method Discard(length: nat) returns (done: nat)
      requires Valid()
      modifies this
      ensures Valid() && done == (if length < |old(Contents())| then length else |old(Contents())|)
      ensures Contents() == old(Contents())[done..]
    {
      done := length;
      if length != 0 {
        var avail := Available();
        if done > avail { done := avail; }
        var index := consume + done;
        if index >= buf.Length { index := index - buf.Length; }
        consume := index;
      }
    }

    /** exos_io_buffer_peek: where the queued bytes from offset on start in the buffer, and how many of
        them stand there in a row; the run stops only at the end of the queue or of the buffer. */
    method Peek(offset: nat) returns (n: nat, at: int)
      requires Valid()
      ensures offset >= |Contents()| ==> n == 0
      ensures offset < |Contents()| ==>
                && n > 0 && offset + n <= |Contents()| && 0 <= at && at + n <= buf.Length
                && buf[at..at + n] == Contents()[offset..offset + n]
                && (offset + n == |Contents()| || at + n == buf.Length)
    {
      var avail := Available();
      if offset >= avail { return 0, 0; }
      var index := consume + offset;
      if index < buf.Length {
        at := index;
        n := if index + avail - offset < buf.Length then avail - offset else buf.Length - index;
      } else {
        at := index - buf.Length;
        n := avail - offset;
      }
      RunInRow(View(), offset, n, at);
    }
  }
}

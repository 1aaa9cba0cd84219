/**
 The keyboard ring of src/keyboard.c: interrupts push, one consumer takes. The consumer's read is two
 steps (fetch the character, then move the read index), and interrupts may come in between.
 */
module Keyboard {

  const KB_BUFFER_SIZE := 256

  /** The ring and the consumer's progress: Fetched holds a character that is read but not yet released. */
  datatype Consumer = Idle | Fetched(c: char)

  datatype Ring = Ring(buf: seq<char>, read: nat, write: nat, consumer: Consumer)

  ghost predicate RingOk(r: Ring) {
    && |r.buf| == KB_BUFFER_SIZE && r.read < KB_BUFFER_SIZE && r.write < KB_BUFFER_SIZE
    && (r.consumer.Fetched? ==> r.read != r.write && r.consumer.c == r.buf[r.read])
  }

  function Queued(r: Ring): nat
    requires r.read < KB_BUFFER_SIZE && r.write < KB_BUFFER_SIZE
  {
    Gap(r.read, r.write)
  }

  /** Steps from position p forward to position w. */
  function Gap(p: nat, w: nat): nat
    requires p < KB_BUFFER_SIZE && w < KB_BUFFER_SIZE
  {
    if w >= p then w - p else w - p + KB_BUFFER_SIZE
  }

  /** The position n steps after p. */
  function After(p: nat, n: nat): (q: nat)
    requires p < KB_BUFFER_SIZE && n <= KB_BUFFER_SIZE
    ensures q < KB_BUFFER_SIZE
    ensures n == 1 ==> q == (p + 1) % KB_BUFFER_SIZE
  {
    if p + n < KB_BUFFER_SIZE then p + n else p + n - KB_BUFFER_SIZE
  }

  /** The n characters from position p of the ring on. */
  function Taken(buf: seq<char>, p: nat, n: nat): (s: seq<char>)
    requires |buf| == KB_BUFFER_SIZE && p < KB_BUFFER_SIZE
    ensures |s| == n
    decreases n, buf
  {
    if n == 0 then [] else [buf[p]] + Taken(buf, After(p, 1), n - 1)
  }

  /** The characters in the queue, oldest first. */
  function Queue(r: Ring): seq<char>
    requires RingOk(r)
  {
    Taken(r.buf, r.read, Queued(r))
  }

  function Start(): (r: Ring) {
    Ring(seq(KB_BUFFER_SIZE, _ => '\0'), 0, 0, Idle)
  }

  // ---- The steps ----

  /** kb_push, in one interrupt. */
  function Push(r: Ring, c: char): Ring
    requires RingOk(r)
  {
    var next := (r.write + 1) % KB_BUFFER_SIZE;
    if next != r.read then r.(buf := r.buf[r.write := c], write := next) else r
  }

  /** The first half of keyboard_getchar, once its wait loop has seen a character. */
  function Fetch(r: Ring): Ring
    requires RingOk(r)
  {
    if r.consumer.Idle? && r.read != r.write then r.(consumer := Fetched(r.buf[r.read])) else r
  }

  /** The second half. */
  function Release(r: Ring): Ring
    requires RingOk(r)
  {
    if r.consumer.Fetched? then r.(read := (r.read + 1) % KB_BUFFER_SIZE, consumer := Idle) else r
  }

  datatype Event = EvPush(c: char) | EvFetch | EvRelease

  function Step(r: Ring, e: Event): Ring
    requires RingOk(r)
  {
    match e
    case EvPush(c) => Push(r, c)
    case EvFetch => Fetch(r)
    case EvRelease => Release(r)
  }

  /** The character a step lets into the ring, and the one it hands to the consumer. */
  function Accepted(r: Ring, e: Event): seq<char>
    requires RingOk(r)
  {
    if e.EvPush? && |Queue(r)| < 255 then [e.c] else []
  }

  function Delivered(r: Ring, e: Event): seq<char>
    requires RingOk(r)
  {
    if e.EvRelease? && r.consumer.Fetched? then [r.consumer.c] else []
  }

  // ---- First in, first out ----

  lemma {:induction false} TakenSame(a: seq<char>, b: seq<char>, p: nat, n: nat, w: nat)
    requires |a| == |b| == KB_BUFFER_SIZE && p < KB_BUFFER_SIZE && w < KB_BUFFER_SIZE
    requires n <= Gap(p, w)
    requires forall k :: 0 <= k < KB_BUFFER_SIZE && k != w ==> a[k] == b[k]
    ensures Taken(a, p, n) == Taken(b, p, n)
    decreases n
  {
    if n > 0 {
      assert p != w;
      TakenSame(a, b, After(p, 1), n - 1, w);
    }
  }

  lemma {:induction false} TakenSnoc(buf: seq<char>, p: nat, n: nat)
    requires |buf| == KB_BUFFER_SIZE && p < KB_BUFFER_SIZE && n < KB_BUFFER_SIZE
    ensures Taken(buf, p, n + 1) == Taken(buf, p, n) + [buf[After(p, n)]]
    decreases n
  {
    if n > 0 {
      TakenSnoc(buf, After(p, 1), n - 1);
      assert After(After(p, 1), n - 1) == After(p, n);
      var rest := Taken(buf, After(p, 1), n - 1);
      assert [buf[p]] + (rest + [buf[After(p, n)]]) == [buf[p]] + rest + [buf[After(p, n)]];
    }
  }

  /** A push appends to the queue, unless the queue is full, which is at 255; then nothing changes. */
  lemma PushAppends(r: Ring, c: char)
    requires RingOk(r)
    ensures RingOk(Push(r, c)) && |Queue(r)| <= 255
    ensures if |Queue(r)| < 255 then Queue(Push(r, c)) == Queue(r) + [c] else Push(r, c) == r
    ensures Push(r, c).consumer == r.consumer
  {
    var n := Queued(r);
    var next := After(r.write, 1);
    assert After(r.read, n) == r.write;
    if n < KB_BUFFER_SIZE - 1 {
      assert next != r.read;
      var q := Push(r, c);
      assert Queued(q) == n + 1;
      TakenSame(r.buf, q.buf, r.read, n, r.write);
      TakenSnoc(q.buf, r.read, n);
    } else {
      assert next == r.read;
    }
  }

  /** The character that a release hands over is the oldest of the queue, whatever was pushed since the fetch. */
  lemma ReleaseTakesOldest(r: Ring)
    requires RingOk(r) && r.consumer.Fetched?
    ensures RingOk(Release(r)) && Queue(r) == [r.consumer.c] + Queue(Release(r))
  {
    assert After(r.read, 1) == Release(r).read;
    assert Queued(r) > 0;
    assert Queued(Release(r)) == Queued(r) - 1;
  }

  lemma FetchKeeps(r: Ring)
    requires RingOk(r)
    ensures RingOk(Fetch(r)) && Queue(Fetch(r)) == Queue(r)
    ensures Fetch(r).consumer.Idle? <==> Queue(r) == []
  {
    assert Queued(r) == 0 <==> r.read == r.write;
  }

  lemma StepFifo(r: Ring, e: Event)
    requires RingOk(r)
    ensures RingOk(Step(r, e))
    ensures Queue(r) + Accepted(r, e) == Delivered(r, e) + Queue(Step(r, e))
  {
    match e
    case EvPush(c) => PushAppends(r, c);
    case EvFetch => FetchKeeps(r);
    case EvRelease => if r.consumer.Fetched? { ReleaseTakesOldest(r); }
  }

  /** What a run of steps leaves, accepts and delivers. */
  datatype Trace = Trace(ring: Ring, accepted: seq<char>, delivered: seq<char>)

  ghost function Run(t: Trace, es: seq<Event>): Trace
    requires RingOk(t.ring)
    decreases |es|, t
  {
    if es == [] then t
    else
      StepFifo(t.ring, es[0]);
      Run(Trace(Step(t.ring, es[0]), t.accepted + Accepted(t.ring, es[0]), t.delivered + Delivered(t.ring, es[0])), es[1..])
  }

  /**
   Under every interleaving of pushes, fetches and releases, the characters delivered followed by
   those still queued are the characters accepted, in order.
   */
  lemma {:induction false} Fifo(t: Trace, es: seq<Event>)
    requires RingOk(t.ring) && t.accepted == t.delivered + Queue(t.ring)
    ensures var u := Run(t, es);
            RingOk(u.ring) && u.accepted == u.delivered + Queue(u.ring)
    decreases |es|
  {
    if es != [] {
      var e := es[0];
      StepFifo(t.ring, e);
      var q := Queue(t.ring);
      assert t.delivered + q + Accepted(t.ring, e) == t.delivered + (q + Accepted(t.ring, e));
      assert t.delivered + (Delivered(t.ring, e) + Queue(Step(t.ring, e))) == t.delivered + Delivered(t.ring, e) + Queue(Step(t.ring, e));
      Fifo(Trace(Step(t.ring, e), t.accepted + Accepted(t.ring, e), t.delivered + Delivered(t.ring, e)), es[1..]);
    }
  }

  lemma FifoFromStart(es: seq<Event>)
    ensures RingOk(Start())
    ensures var u := Run(Trace(Start(), [], []), es);
            RingOk(u.ring) && u.accepted == u.delivered + Queue(u.ring) && |Queue(u.ring)| <= 255
  {
    Fifo(Trace(Start(), [], []), es);
  }

  // ---- The code ----

  class KeyboardBuffer {
    const buf: array<char>
    var read: nat
    var write: nat
    /** Where the consumer stands in keyboard_getchar. */
    var consumer: Consumer

    ghost function State(): Ring
      reads this, buf
    {
      Ring(buf[..], read, write, consumer)
    }

    ghost predicate Valid()
      reads this, buf
    {
      RingOk(State())
    }

    constructor ()
      ensures Valid() && fresh(buf) && State() == Start()
    {
      buf := new char[KB_BUFFER_SIZE](_ => '\0');
      read, write, consumer := 0, 0, Idle;
    }

    method KbPush(c: char)
      requires Valid()
      modifies this, buf
      ensures Valid() && State() == Push(old(State()), c)
    {
      PushAppends(State(), c);
      var next := (write + 1) % KB_BUFFER_SIZE;
      if next != read {
        buf[write] := c;
        write := next;
      }
    }

    method HasChar() returns (r: bool)
      requires Valid()
      ensures r <==> Queue(State()) != []
    {
      FetchKeeps(State());
      r := read != write;
    }

    /** keyboard_getchar up to the read of the character; the caller has seen HasChar. */
    method GetCharFetch() returns (c: char)
      requires Valid() && consumer.Idle? && Queue(State()) != []
      modifies this
      ensures Valid() && State() == Fetch(old(State())) && c == Queue(old(State()))[0]
    {
      FetchKeeps(State());
      c := buf[read];
      consumer := Fetched(c);
    }

    /** The rest of keyboard_getchar. */
    method GetCharRelease()
      requires Valid() && consumer.Fetched?
      modifies this
      ensures Valid() && State() == Release(old(State()))
      ensures old(Queue(State())) == [old(consumer.c)] + Queue(State())
    {
      ReleaseTakesOldest(State());
      read := (read + 1) % KB_BUFFER_SIZE;
      consumer := Idle;
    }
  }
}

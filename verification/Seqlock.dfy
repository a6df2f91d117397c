/** The single-writer seqlock broadcast ring that the video control page (frame
    slots, stream configs) and the audio rings share: crates/jackstay/include/jackstay_ring.h,
    "Concurrency model". Cursors count records from 1; each record lives in one slot,
    guarded by a sequence word that is 0 while the slot is being rewritten and the
    record's cursor otherwise.

    `Ring` is the shared memory together with the writer's program position. Every
    store is one `WriteStep`, and a reader copies one word at a time, so any
    interleaving of one writer with any number of readers is a sequence of these
    steps. Neither side fixes the order in which it moves the words of a body. */
module Seqlock {
  import opened Modular

  /** Cursors count from 1; 0 marks a slot in the middle of a rewrite. */
  type Cursor = c: nat | 1 <= c witness 1

  /** Where the writer stands inside a publication. */
  datatype Writer = Idle | Storing(record: seq<nat>, done: set<nat>) | Stamped

  /** `first` is the slot of cursor 1, `width` the body length in words, and
      `log` the history of every record whose publication has begun. */
  datatype Ring = Ring(
    first: nat,
    width: nat,
    words: seq<nat>,
    bodies: seq<seq<nat>>,
    cursor: nat,
    writer: Writer,
    log: seq<seq<nat>>)
  {
    function Index(c: Cursor): (i: nat)
      requires |words| >= 1
      ensures i < |words|
    {
      (c - 1 + first) % |words|
    }

    /** The memory layout, fixed when the ring is created. */
    predicate Laid() {
      && |words| >= 1
      && |bodies| == |words|
      && (forall i | 0 <= i < |bodies| :: |bodies[i]| == width)
      && (writer.Storing? ==> |writer.record| <= width)
    }

    /** The sequence word of `c`'s slot names it. */
    predicate Holds(c: Cursor)
      requires |words| >= 1
    {
      words[Index(c)] == c
    }

    /** Records whose sequence word has been stored at least once. */
    function Stored(): nat {
      if writer.Stamped? then cursor + 1 else cursor
    }
  }

  datatype WriteStep = Begin(record: seq<nat>) | Store(i: nat) | Stamp | Announce

  predicate CanWrite(r: Ring, step: WriteStep) {
    match step
    case Begin(record) => r.writer.Idle? && |record| <= r.width
    case Store(i) => r.writer.Storing? && i < |r.writer.record|
    case Stamp => r.writer.Storing? && forall i | 0 <= i < |r.writer.record| :: i in r.writer.done
    case Announce => r.writer.Stamped?
  }

  /** One store of the writer. `Begin` zeroes the sequence word, `Store` writes one
      word of the body, `Stamp` publishes the slot and `Announce` the ring cursor. */
  function Write(r: Ring, step: WriteStep): Ring
    requires r.Laid() && CanWrite(r, step)
  {
    var at := r.Index(r.cursor + 1);
    match step
    case Begin(record) =>
      r.(words := r.words[at := 0], writer := Storing(record, {}), log := r.log + [record])
    case Store(i) =>
      r.(bodies := r.bodies[at := r.bodies[at][i := r.writer.record[i]]],
         writer := Storing(r.writer.record, r.writer.done + {i}))
    case Stamp => r.(words := r.words[at := r.cursor + 1], writer := Stamped)
    case Announce => r.(cursor := r.cursor + 1, writer := Idle)
  }

  ghost predicate Shape(r: Ring) {
    && r.Laid()
    && |r.log| == r.cursor + (if r.writer.Idle? then 0 else 1)
    && (forall k | 0 <= k < |r.log| :: |r.log[k]| <= r.width)
  }

  /** What the writer's position promises about the slot it is rewriting. */
  ghost predicate WriterInv(r: Ring)
    requires Shape(r)
  {
    r.writer.Storing? ==>
      var Storing(record, done) := r.writer;
      var at := r.Index(r.cursor + 1);
      && record == r.log[r.cursor]
      && r.words[at] == 0
      && (forall i | 0 <= i < |record| && i in done :: r.bodies[at][i] == record[i])
  }

  /** A nonzero sequence word names a stored record and the body holds it. */
  ghost predicate Named(r: Ring)
    requires Shape(r)
  {
    forall i | 0 <= i < |r.words| && r.words[i] != 0 ::
      r.words[i] <= r.Stored() && r.Index(r.words[i]) == i && r.log[r.words[i] - 1] <= r.bodies[i]
  }

  /** A stored record that no later publication has begun to overwrite is still there. */
  ghost predicate Kept(r: Ring)
    requires Shape(r)
  {
    forall c: Cursor | c <= r.Stored() && |r.log| < c + |r.words| :: r.Holds(c)
  }

  ghost predicate Inv(r: Ring) {
    Shape(r) && WriterInv(r) && Named(r) && Kept(r)
  }

  lemma WriteKeepsKept(r: Ring, step: WriteStep)
    requires Inv(r) && CanWrite(r, step) && Shape(Write(r, step))
    ensures Kept(Write(r, step))
  {
    var r' := Write(r, step);
    forall c: Cursor | c <= r'.Stored() && |r'.log| < c + |r.words|
      ensures r'.Holds(c)
    {
      assert c <= r.Stored() ==> r.Holds(c);
      if c <= r.cursor < c + |r.words| - 1 {
        ModDistinct(c - 1 + r.first, r.cursor + 1 - c, |r.words|);
        assert r.Index(c) != r.Index(r.cursor + 1);
      }
    }
  }

  /** Every store of the writer keeps the ring invariant. */
  lemma WriteKeepsInv(r: Ring, step: WriteStep)
    requires Inv(r) && CanWrite(r, step)
    ensures Inv(Write(r, step))
  {
    WriteKeepsKept(r, step);
  }

  /** A store a writer in the middle of a publication can make next. */
  ghost function NextWrite(r: Ring): (step: WriteStep)
    requires !r.writer.Idle?
    ensures CanWrite(r, step) && !step.Begin?
  {
    if r.writer.Stamped? then Announce
    else if i :| 0 <= i < |r.writer.record| && i !in r.writer.done then Store(i) else Stamp
  }

  // ---- Readers ----

  /** A copy in progress: the wanted cursor, the sequence word seen first, and the
      words copied so far. */
  datatype Copy = Copy(want: Cursor, seen: nat, words: map<nat, nat>)

  function OpenCopy(r: Ring, c: Cursor): Copy
    requires r.Laid()
  {
    Copy(c, r.words[r.Index(c)], map[])
  }

  function CopyWord(r: Ring, copy: Copy, i: nat): Copy
    requires r.Laid() && i < r.width
  {
    copy.(words := copy.words[i := r.bodies[r.Index(copy.want)][i]])
  }

  /** The validating re-read: both sequence words named the wanted cursor. */
  predicate Intact(r: Ring, copy: Copy)
    requires r.Laid()
  {
    copy.seen == copy.want && r.Holds(copy.want)
  }

  predicate Complete(copy: Copy, width: nat) {
    forall i | 0 <= i < width :: i in copy.words
  }

  function CopiedWords(copy: Copy, width: nat): (s: seq<nat>)
    requires Complete(copy, width)
  {
    seq(width, i requires 0 <= i < width => copy.words[i])
  }

  /** While the sequence word still names the wanted cursor, everything copied under
      it is the current body. Once it stops naming it, it never does again. */
  ghost predicate CopyInv(r: Ring, copy: Copy)
    requires Shape(r)
  {
    copy.seen == copy.want ==>
      && copy.want <= r.Stored()
      && (r.Holds(copy.want) ==>
            forall i | i in copy.words :: i < r.width && copy.words[i] == r.bodies[r.Index(copy.want)][i])
  }

  /** No store of the writer can turn a copy into one that validates wrongly. */
  lemma WriteKeepsCopy(r: Ring, step: WriteStep, copy: Copy)
    requires Inv(r) && CanWrite(r, step) && CopyInv(r, copy)
    ensures Shape(Write(r, step)) && CopyInv(Write(r, step), copy)
  {
    WriteKeepsInv(r, step);
  }

  /** A validated copy holds exactly the record published at its cursor. */
  lemma IntactCopyIsRecord(r: Ring, copy: Copy)
    requires Inv(r) && CopyInv(r, copy) && Intact(r, copy) && Complete(copy, r.width)
    ensures copy.want <= r.Stored() && r.log[copy.want - 1] <= CopiedWords(copy, r.width)
  {
    var at := r.Index(copy.want);
    assert CopiedWords(copy, r.width) == r.bodies[at];
  }

  /** The newest cursor up to `top` that shares the slot of `c`. */
  function LatestAt(r: Ring, c: Cursor, top: nat): (last: Cursor)
    requires |r.words| >= 1 && c <= top
    ensures c <= last <= top < last + |r.words| && r.Index(last) == r.Index(c)
  {
    Latest(top - 1 + r.first, c - 1 + r.first, |r.words|) - r.first + 1
  }

  /** In every state, mid-write or not, a sequence word names cursor `c` exactly when
      `c` has been stored and no later publication has begun to overwrite it. */
  lemma WordNames(r: Ring, c: Cursor)
    requires Inv(r)
    ensures r.Holds(c) <==> c <= r.Stored() && |r.log| < c + |r.words|
  {
    if c <= r.Stored() && c + |r.words| <= |r.log| {
      var last := LatestAt(r, c, |r.log|);
      assert last <= r.Stored() ==> r.Holds(last);
    }
  }

  /** A full-width record whose word names it is the whole body of its slot. */
  lemma HeldBody(r: Ring, c: Cursor)
    requires Inv(r) && r.Holds(c)
    ensures c <= |r.log| && (|r.log[c - 1]| == r.width ==> r.bodies[r.Index(c)] == r.log[c - 1])
  {
    var at := r.Index(c);
    assert r.words[at] != 0 && r.log[c - 1] <= r.bodies[at];
  }

  /** The ring as one process's mapping: a fixed array of sequence words and one of
      bodies. Each store below is one `WriteStep`; `Publish` makes them in order. */
  class SharedRing {
    const first: nat
    const width: nat
    const words: array<nat>
    const bodies: array<seq<nat>>
    var cursor: nat
    ghost var writer: Writer
    ghost var log: seq<seq<nat>>

    ghost function View(): Ring
      reads this, words, bodies
    {
      Ring(first, width, words[..], bodies[..], cursor, writer, log)
    }

    ghost predicate Valid()
      reads this, words, bodies
    {
      Inv(View())
    }

    constructor (slots: nat, first: nat, width: nat)
      requires slots >= 1
      ensures Valid() && fresh(words) && fresh(bodies)
      ensures View() == Ring(first, width, seq(slots, _ => 0), View().bodies, 0, Idle, [])
    {
      this.first, this.width := first, width;
      words := new nat[slots](_ => 0);
      bodies := new seq<nat>[slots](_ => seq(width, _ => 0));
      cursor, writer, log := 0, Idle, [];
      new;
      assert words[..] == seq(slots, _ => 0);
    }

    method Begin(record: seq<nat>)
      requires Valid() && CanWrite(View(), WriteStep.Begin(record))
      modifies this`writer, this`log, words
      ensures Valid() && View() == Write(old(View()), WriteStep.Begin(record))
    {
      WriteKeepsInv(View(), WriteStep.Begin(record));
      words[(cursor + first) % words.Length] := 0;
      writer, log := Storing(record, {}), log + [record];
    }

    method Store(i: nat, word: nat)
      requires Valid() && CanWrite(View(), WriteStep.Store(i)) && word == writer.record[i]
      modifies this`writer, bodies
      ensures Valid() && View() == Write(old(View()), WriteStep.Store(i))
    {
      WriteKeepsInv(View(), WriteStep.Store(i));
      var at := (cursor + first) % words.Length;
      bodies[at] := bodies[at][i := word];
      writer := Storing(writer.record, writer.done + {i});
    }

    method Stamp()
      requires Valid() && CanWrite(View(), WriteStep.Stamp)
      modifies this`writer, words
      ensures Valid() && View() == Write(old(View()), WriteStep.Stamp)
    {
      WriteKeepsInv(View(), WriteStep.Stamp);
      words[(cursor + first) % words.Length] := cursor + 1;
      writer := Stamped;
    }

    method Announce()
      requires Valid() && CanWrite(View(), WriteStep.Announce)
      modifies this`writer, this`cursor
      ensures Valid() && View() == Write(old(View()), WriteStep.Announce)
    {
      WriteKeepsInv(View(), WriteStep.Announce);
      cursor, writer := cursor + 1, Idle;
    }

    method Publish(record: seq<nat>) returns (c: nat)
      requires Valid() && writer.Idle? && |record| <= width
      modifies this`cursor, this`writer, this`log, words, bodies
      ensures Valid() && writer.Idle? && log == old(log) + [record]
      ensures c == cursor == old(cursor) + 1
    {
      Begin(record);
      for i := 0 to |record|
        modifies this`writer, bodies
        invariant Valid() && log == old(log) + [record]
        invariant writer.Storing? && writer.record == record
        invariant forall k | 0 <= k < i :: k in writer.done
      {
        Store(i, record[i]);
      }
      Stamp();
      Announce();
      c := cursor;
    }
  }
}

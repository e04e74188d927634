/** The write-ahead file: every entry is framed by its length and a hash of its bytes. */
module WriteAheads {
  import opened RandomAccessFiles
  import opened DbTypes
  import opened EngineLogs

  /** The serializer and the hash. */
  datatype Codec = Codec(serialize: LogEntry -> Bytes, parse: Bytes -> Option<LogEntry>, hash: Bytes -> Bytes)

  const HEAD := 20

  /** Hashes have 16 bytes. */
  ghost predicate Hashing(c: Codec) {
    forall b :: |c.hash(b)| == 16
  }

  /** An entry that can be logged: its message can be parsed again, and its length is an `int`. */
  ghost predicate Loggable(c: Codec, e: LogEntry) {
    c.parse(c.serialize(e)) == Some(e) && |c.serialize(e)| < 0x8000_0000
  }

  ghost predicate AllLoggable(c: Codec, es: seq<LogEntry>) {
    Hashing(c) && forall i | 0 <= i < |es| :: Loggable(c, es[i])
  }

  // ------------------------------------------------------------------
  // Frames
  // ------------------------------------------------------------------

  /** A frame around a body: its length, a hash, and the body. */
  function Framed(length: nat, hash: Bytes, body: Bytes): Bytes
    requires length < 0x1_0000_0000
  {
    ToLe(length) + hash + body
  }

  ghost function Frame(c: Codec, e: LogEntry): Bytes
    requires Loggable(c, e)
  {
    var body := c.serialize(e);
    Framed(|body|, c.hash(body), body)
  }

  ghost function Frames(c: Codec, es: seq<LogEntry>): Bytes
    requires AllLoggable(c, es)
  {
    if es == [] then [] else Frame(c, es[0]) + Frames(c, es[1..])
  }

  lemma {:induction false} FramesAppend(c: Codec, es: seq<LogEntry>, e: LogEntry)
    requires AllLoggable(c, es) && Loggable(c, e)
    ensures AllLoggable(c, es + [e])
    ensures Frames(c, es + [e]) == Frames(c, es) + Frame(c, e)
  {
    if es == [] {
      assert [e][1..] == [];
    } else {
      FramesAppend(c, es[1..], e);
      assert (es + [e])[1..] == es[1..] + [e];
      assert Frame(c, es[0]) + (Frames(c, es[1..]) + Frame(c, e)) == Frame(c, es[0]) + Frames(c, es[1..]) + Frame(c, e);
    }
  }

  // ------------------------------------------------------------------
  // Replay
  // ------------------------------------------------------------------

  /** The entries that were handed out, and how replay ended. */
  datatype End = Complete | HashMismatch | ParseError
  datatype Outcome = Outcome(entries: seq<LogEntry>, end: End)

  /** What a read of `n` bytes leaves in a buffer: behind the end of the file the buffer keeps
      what it happened to hold. */
  function ReadAt(file: Bytes, position: nat, n: nat, junk: nat -> byte): (r: Bytes)
    ensures |r| == n
  {
    seq(n, i requires 0 <= i => if position + i < |file| then file[position + i] else junk(i))
  }

  function Prepend(es: seq<LogEntry>, o: Outcome): Outcome {
    o.(entries := es + o.entries)
  }

  function ReplayFrom(c: Codec, file: Bytes, position: nat, junk: nat -> byte): Outcome
    decreases |file| - position
  {
    if position >= |file| then Outcome([], Complete)
    else
      var head := ReadAt(file, position, HEAD, junk);
      var length := FromLe(head[..4]);
      var body := ReadAt(file, position + HEAD, length, junk);
      if head[4..] != c.hash(body) then Outcome([], HashMismatch)
      else match c.parse(body)
        case None => Outcome([], ParseError)
        case Some(e) => Prepend([e], ReplayFrom(c, file, position + HEAD + length, junk))
  }

  /** One frame inside a file is read back. */
  lemma ReadFrame(before: Bytes, hash: Bytes, body: Bytes, after: Bytes, junk: nat -> byte)
    requires |hash| == 16 && |body| < 0x1_0000_0000
    ensures var file := before + Framed(|body|, hash, body) + after;
            var head := ReadAt(file, |before|, HEAD, junk);
            && FromLe(head[..4]) == |body| && head[4..] == hash
            && ReadAt(file, |before| + HEAD, |body|, junk) == body
  {
    LeRoundTrip(|body|);
    var file := before + Framed(|body|, hash, body) + after;
    var head := ReadAt(file, |before|, HEAD, junk);
    assert forall i | 0 <= i < 20 :: head[i] == (ToLe(|body|) + hash)[i];
    assert head[..4] == ToLe(|body|);
    assert head[4..] == hash;
  }

  /** What replay does with the bytes it reads at a position. */
  lemma ReplayStep(c: Codec, file: Bytes, position: nat, head: Bytes, body: Bytes, junk: nat -> byte)
    requires position < |file| && head == ReadAt(file, position, HEAD, junk)
    requires body == ReadAt(file, position + HEAD, FromLe(head[..4]), junk)
    ensures ReplayFrom(c, file, position, junk)
            == if head[4..] != c.hash(body) then Outcome([], HashMismatch)
               else if c.parse(body).None? then Outcome([], ParseError)
               else Prepend([c.parse(body).value], ReplayFrom(c, file, position + HEAD + FromLe(head[..4]), junk))
  {
    hide ReadAt, FromLe;
  }

  lemma ReplayOne(c: Codec, before: Bytes, e: LogEntry, after: Bytes, junk: nat -> byte)
    requires Hashing(c) && Loggable(c, e)
    ensures var file := before + Frame(c, e) + after;
            ReplayFrom(c, file, |before|, junk) == Prepend([e], ReplayFrom(c, file, |before| + |Frame(c, e)|, junk))
  {
    hide ReplayFrom, ReadAt, FromLe, Prepend;
    var body := c.serialize(e);
    ReadFrame(before, c.hash(body), body, after, junk);
    assert |Frame(c, e)| == HEAD + |body|;
    ReplayStep(c, before + Frame(c, e) + after, |before|, ReadAt(before + Frame(c, e) + after, |before|, HEAD, junk),
               body, junk);
  }

  /** Complete frames are read back one by one, whatever follows them in the file. */
  lemma {:induction false} ReplayFrames(c: Codec, before: Bytes, es: seq<LogEntry>, after: Bytes, junk: nat -> byte)
    requires AllLoggable(c, es)
    ensures var file := before + Frames(c, es) + after;
            ReplayFrom(c, file, |before|, junk) == Prepend(es, ReplayFrom(c, file, |before| + |Frames(c, es)|, junk))
    decreases |es|
  {
    hide ReplayFrom, Frame, Loggable, Hashing;
    var file := before + Frames(c, es) + after;
    if es == [] {
      PrependNone(ReplayFrom(c, file, |before|, junk));
    } else {
      var f, rest := Frame(c, es[0]), Frames(c, es[1..]);
      assert file == before + f + (rest + after) && file == before + f + rest + after;
      ReplayOne(c, before, es[0], rest + after, junk);
      ReplayFrames(c, before + f, es[1..], after, junk);
      assert |before| + |Frames(c, es)| == |before + f| + |rest|;
      PrependFirst(es, ReplayFrom(c, file, |before| + |Frames(c, es)|, junk));
    }
  }

  lemma PrependNone(o: Outcome)
    ensures Prepend([], o) == o
  {
    assert [] + o.entries == o.entries;
  }

  lemma PrependFirst(es: seq<LogEntry>, o: Outcome)
    requires es != []
    ensures Prepend([es[0]], Prepend(es[1..], o)) == Prepend(es, o)
  {
    assert [es[0]] + (es[1..] + o.entries) == es + o.entries;
  }

  /** A log is read back exactly. */
  lemma LogRoundTrip(c: Codec, es: seq<LogEntry>, junk: nat -> byte)
    requires AllLoggable(c, es)
    ensures ReplayFrom(c, Frames(c, es), 0, junk) == Outcome(es, Complete)
  {
    hide Frames;
    ReplayFrames(c, [], es, [], junk);
    assert es + [] == es;
    assert [] + Frames(c, es) + [] == Frames(c, es);
  }

  /** What recovery makes of the file is what it makes of the entries that were logged. */
  lemma RecoveredFromFile(c: Codec, log: seq<LogEntry>, junk: nat -> byte)
    requires AllLoggable(c, log)
    ensures BookOf(ReplayFrom(c, Frames(c, log), 0, junk).entries) == BookOf(log)
  {
    hide ReplayFrom, Frames, BookOf;
    LogRoundTrip(c, log, junk);
  }

  /** Changed bytes of a body are noticed, unless the hash collides: replay throws when it comes
      to the entry, after it has handed out exactly the entries before it. */
  lemma CorruptionDetected(c: Codec, es: seq<LogEntry>, e: LogEntry, body: Bytes, after: Bytes, junk: nat -> byte)
    requires AllLoggable(c, es) && |c.serialize(e)| < 0x8000_0000 && |body| == |c.serialize(e)|
             && c.hash(body) != c.hash(c.serialize(e))
    ensures ReplayFrom(c, Frames(c, es) + Framed(|body|, c.hash(c.serialize(e)), body) + after, 0, junk)
            == Outcome(es, HashMismatch)
  {
    hide Frames, ReplayFrom, ReadAt, FromLe, ToLe;
    var f := Framed(|body|, c.hash(c.serialize(e)), body);
    var file := Frames(c, es) + f + after;
    assert file == [] + Frames(c, es) + (f + after);
    ReplayFrames(c, [], es, f + after, junk);
    ReadFrame(Frames(c, es), c.hash(c.serialize(e)), body, after, junk);
    ReplayStep(c, file, |Frames(c, es)|, ReadAt(file, |Frames(c, es)|, HEAD, junk), body, junk);
    assert es + [] == es;
  }

  /** A body that is not a message makes replay throw, after it has handed out exactly the entries
      before it. */
  lemma ParseErrorDetected(c: Codec, es: seq<LogEntry>, body: Bytes, after: Bytes, junk: nat -> byte)
    requires AllLoggable(c, es) && |body| < 0x8000_0000 && c.parse(body).None?
    ensures ReplayFrom(c, Frames(c, es) + Framed(|body|, c.hash(body), body) + after, 0, junk)
            == Outcome(es, ParseError)
  {
    hide Frames, ReplayFrom, ReadAt, FromLe, ToLe;
    var f := Framed(|body|, c.hash(body), body);
    var file := Frames(c, es) + f + after;
    assert file == [] + Frames(c, es) + (f + after);
    ReplayFrames(c, [], es, f + after, junk);
    ReadFrame(Frames(c, es), c.hash(body), body, after, junk);
    ReplayStep(c, file, |Frames(c, es)|, ReadAt(file, |Frames(c, es)|, HEAD, junk), body, junk);
    assert es + [] == es;
  }

  /** The bytes of a frame: the length, least significant byte first, 16 bytes of hash, the message. */
  lemma FrameLayout(c: Codec, e: LogEntry)
    requires Hashing(c) && Loggable(c, e)
    ensures var f, body := Frame(c, e), c.serialize(e);
            && |f| == 20 + |body|
            && f[0] as int + 256 * (f[1] as int) + 65536 * (f[2] as int) + 16777216 * (f[3] as int) == |body|
            && f[4..20] == c.hash(body) && f[20..] == body
  {
    var body := c.serialize(e);
    LeRoundTrip(|body|);
    var f := Frame(c, e);
    assert f == ToLe(|body|) + c.hash(body) + body;
    assert forall i | 0 <= i < 4 :: f[i] == ToLe(|body|)[i];
  }

  /** Whatever stands behind complete frames is noticed: replay throws, or it hands out more. */
  lemma TailIsNoticed(c: Codec, es: seq<LogEntry>, tail: Bytes, junk: nat -> byte)
    requires AllLoggable(c, es) && tail != []
    ensures ReplayFrom(c, Frames(c, es) + tail, 0, junk) != Outcome(es, Complete)
  {
    hide Frames;
    ReplayFrames(c, [], es, tail, junk);
    assert [] + Frames(c, es) + tail == Frames(c, es) + tail;
    var o := ReplayFrom(c, Frames(c, es) + tail, |Frames(c, es)|, junk);
    assert o != Outcome([], Complete);
    assert |es + o.entries| == |es| + |o.entries|;
  }

  /** A torn tail never costs a complete entry before it. */
  lemma TornTail(c: Codec, es: seq<LogEntry>, tail: Bytes, junk: nat -> byte)
    requires AllLoggable(c, es)
    ensures es <= ReplayFrom(c, Frames(c, es) + tail, 0, junk).entries
  {
    hide ReplayFrom, Frames;
    ReplayFrames(c, [], es, tail, junk);
    assert [] + Frames(c, es) + tail == Frames(c, es) + tail;
  }

  // ------------------------------------------------------------------
  // The file
  // ------------------------------------------------------------------

  class WriteAhead {
    const codec: Codec
    var file: Bytes
    var cursor: nat
    ghost var entries: seq<LogEntry>

    /** The file holds the frames of the entries logged so far, and the cursor is at its end. */
    ghost predicate Valid()
      reads this
    {
      AllLoggable(codec, entries) && file == Frames(codec, entries) && cursor == |file|
    }

    constructor (codec: Codec)
      requires Hashing(codec)
      ensures Valid() && entries == []
    {
      this.codec := codec;
      file, cursor, entries := [], 0, [];
    }

    method WriteSync(b: Bytes)
      requires cursor == |file|
      modifies this`file, this`cursor
      ensures file == old(file) + b && cursor == |file|
    {
      file := file + b;
      cursor := cursor + |b|;
    }

    method ReadSync(n: nat, junk: nat -> byte) returns (b: Bytes)
      requires cursor <= |file|
      modifies this`cursor
      ensures b == ReadAt(file, old(cursor), n, junk)
      ensures cursor == if old(cursor) + n < |file| then old(cursor) + n else |file|
    {
      b := ReadAt(file, cursor, n, junk);
      cursor := if cursor + n < |file| then cursor + n else |file|;
    }

    method Log(e: LogEntry)
      requires Valid() && Loggable(codec, e)
      modifies this
      ensures Valid() && entries == old(entries) + [e] && file == old(file) + Frame(codec, e)
      ensures |codec.serialize(e)| < 0x8000_0000
      ensures file == old(file) + ToLe(|codec.serialize(e)|) + codec.hash(codec.serialize(e)) + codec.serialize(e)
    {
      FramesAppend(codec, entries, e);
      var body := codec.serialize(e);
      WriteSync(Framed(|body|, codec.hash(body), body));
      entries := entries + [e];
    }

    /** Reads the whole file. Whatever it contains, the outcome is that of the specification. */
    method Read(junk: nat -> byte) returns (o: Outcome)
      modifies this`cursor
      ensures o == ReplayFrom(codec, file, 0, junk) && (o.end == Complete ==> cursor == |file|)
    {
      hide ReplayFrom, ReadAt, FromLe, Prepend;
      cursor := 0;
      var position := 0;
      PrependNone(ReplayFrom(codec, file, 0, junk));
      o := Outcome([], Complete);
      while position < |file|
        invariant cursor == if position < |file| then position else |file|
        invariant o.end == Complete
        invariant ReplayFrom(codec, file, 0, junk) == Prepend(o.entries, ReplayFrom(codec, file, position, junk))
        decreases |file| - position
      {
        var head := ReadSync(HEAD, junk);
        var length := FromLe(head[..4]);
        var body := ReadBody(position, length, junk);
        ReplayStep(codec, file, position, head, body, junk);
        if head[4..] != codec.hash(body) {
          PrependEnd(o.entries, HashMismatch);
          return Outcome(o.entries, HashMismatch);
        }
        var entry := codec.parse(body);
        if entry.None? {
          PrependEnd(o.entries, ParseError);
          return Outcome(o.entries, ParseError);
        }
        PrependTwice(o.entries, entry.value, ReplayFrom(codec, file, position + HEAD + length, junk));
        o := o.(entries := o.entries + [entry.value]);
        position := position + HEAD + length;
      }
      ReplayEnds(codec, file, position, junk);
      PrependEnd(o.entries, Complete);
    }

    /** The bytes behind a head; when the head was already torn there are none left. */
    method ReadBody(position: nat, n: nat, junk: nat -> byte) returns (b: Bytes)
      requires cursor == if position + HEAD < |file| then position + HEAD else |file|
      modifies this`cursor
      ensures b == ReadAt(file, position + HEAD, n, junk)
      ensures cursor == if position + HEAD + n < |file| then position + HEAD + n else |file|
    {
      b := ReadSync(n, junk);
      assert b == ReadAt(file, position + HEAD, n, junk);
    }

    /** What was logged is read back, in order, and logging can go on. */
    method Replay(junk: nat -> byte) returns (o: Outcome)
      requires Valid()
      modifies this`cursor
      ensures Valid() && o == Outcome(entries, Complete)
    {
      LogRoundTrip(codec, entries, junk);
      o := Read(junk);
    }
  }

  lemma PrependEnd(es: seq<LogEntry>, end: End)
    ensures Prepend(es, Outcome([], end)) == Outcome(es, end)
  {
  }

  lemma ReplayEnds(c: Codec, file: Bytes, position: nat, junk: nat -> byte)
    requires position >= |file|
    ensures ReplayFrom(c, file, position, junk) == Outcome([], Complete)
  {
  }

  lemma PrependTwice(es: seq<LogEntry>, e: LogEntry, o: Outcome)
    ensures Prepend(es, Prepend([e], o)) == Prepend(es + [e], o)
  {
    assert es + ([e] + o.entries) == es + [e] + o.entries;
  }
}

/** A concrete format for log entries: an example of a codec that the log can be used with. */
module LogFormats {
  import opened RandomAccessFiles
  import opened DbTypes
  import opened EngineLogs
  import opened WriteAheads

  /** A value at the front of some bytes, and what follows it. */
  datatype Parsed<T> = Parsed(value: T, rest: Bytes) | Failed

  // Numbers: each digit to base 256 behind a 1, and a 0 at the end ------------

  function PutNat(n: nat): Bytes {
    if n == 0 then [0] else [1, (n % 256) as byte] + PutNat(n / 256)
  }

  function GetNat(b: Bytes): Parsed<nat> {
    if |b| == 0 then Failed
    else if b[0] == 0 then Parsed(0, b[1..])
    else if |b| == 1 then Failed
    else match GetNat(b[2..])
      case Failed => Failed
      case Parsed(n, rest) => Parsed(b[1] as int + 256 * n, rest)
  }

  lemma {:induction false} NatRoundTrip(n: nat, rest: Bytes)
    ensures GetNat(PutNat(n) + rest) == Parsed(n, rest)
  {
    if n == 0 {
      assert ([0] + rest)[1..] == rest;
    } else {
      NatRoundTrip(n / 256, rest);
      GetDigit((n % 256) as byte, PutNat(n / 256), rest);
    }
  }

  lemma GetDigit(digit: byte, more: Bytes, rest: Bytes)
    requires GetNat(more + rest).Parsed?
    ensures GetNat([1, digit] + more + rest) ==
            Parsed(digit as int + 256 * GetNat(more + rest).value, GetNat(more + rest).rest)
  {
    assert ([1, digit] + more + rest)[2..] == more + rest;
  }

  function PutInt(n: int): Bytes {
    if n >= 0 then [0] + PutNat(n) else [1] + PutNat(-n)
  }

  function GetInt(b: Bytes): Parsed<int> {
    if |b| == 0 then Failed
    else match GetNat(b[1..])
      case Failed => Failed
      case Parsed(n, rest) => var m: int := n; Parsed(if b[0] == 0 then m else -m, rest)
  }

  lemma IntRoundTrip(n: int, rest: Bytes)
    ensures GetInt(PutInt(n) + rest) == Parsed(n, rest)
  {
    hide PutNat, GetNat;
    var m := if n >= 0 then n else -n;
    NatRoundTrip(m, rest);
    assert (PutInt(n) + rest)[1..] == PutNat(m) + rest;
  }

  // Mutations ----------------------------------------------------------------

  function PutBytes(b: Bytes): Bytes {
    PutNat(|b|) + b
  }

  function GetBytes(b: Bytes): Parsed<Bytes> {
    match GetNat(b)
    case Failed => Failed
    case Parsed(n, rest) => if n <= |rest| then Parsed(rest[..n], rest[n..]) else Failed
  }

  lemma BytesRoundTrip(b: Bytes, rest: Bytes)
    ensures GetBytes(PutBytes(b) + rest) == Parsed(b, rest)
  {
    NatRoundTrip(|b|, b + rest);
    assert PutBytes(b) + rest == PutNat(|b|) + (b + rest);
    assert (b + rest)[..|b|] == b && (b + rest)[|b|..] == rest;
  }

  function PutMutation(m: Mutation): Bytes {
    [if m.kind == MutationType.Insert then 0 else 1]
    + (PutInt(m.storageIndex) + (PutInt(m.documentId) + PutBytes(m.buffer)))
  }

  function GetMutation(b: Bytes): Parsed<Mutation> {
    if |b| == 0 then Failed
    else
      var x := GetInt(b[1..]);
      if x.Failed? then Failed
      else
        var d := GetInt(x.rest);
        if d.Failed? then Failed
        else
          match GetBytes(d.rest)
          case Failed => Failed
          case Parsed(buffer, rest) =>
            Parsed(Mutation(if b[0] == 0 then MutationType.Insert else MutationType.Modify, x.value, d.value, buffer),
                   rest)
  }

  lemma Regrouped(a: Bytes, b: Bytes, rest: Bytes)
    ensures a + b + rest == a + (b + rest)
  {
  }

  lemma MutationRoundTrip(m: Mutation, rest: Bytes)
    ensures GetMutation(PutMutation(m) + rest) == Parsed(m, rest)
  {
    hide PutInt, GetInt, PutBytes, GetBytes;
    var x, d, u := PutInt(m.storageIndex), PutInt(m.documentId), PutBytes(m.buffer);
    BytesRoundTrip(m.buffer, rest);
    IntRoundTrip(m.documentId, u + rest);
    IntRoundTrip(m.storageIndex, d + (u + rest));
    Regrouped(d, u, rest);
    Regrouped(x, d + u, rest);
    assert (PutMutation(m) + rest)[1..] == x + (d + u) + rest;
  }

  function PutMutations(ms: seq<Mutation>): Bytes {
    if ms == [] then [0] else [1] + (PutMutation(ms[0]) + PutMutations(ms[1..]))
  }

  lemma {:induction false} MutationShorter(b: Bytes)
    ensures GetMutation(b).Parsed? ==> |GetMutation(b).rest| < |b|
  {
    if |b| > 0 {
      IntShorter(b[1..]);
      if GetInt(b[1..]).Parsed? {
        IntShorter(GetInt(b[1..]).rest);
        if GetInt(GetInt(b[1..]).rest).Parsed? {
          NatShorter(GetInt(GetInt(b[1..]).rest).rest);
        }
      }
    }
  }

  lemma IntShorter(b: Bytes)
    ensures GetInt(b).Parsed? ==> |GetInt(b).rest| < |b|
  {
    if |b| > 0 {
      NatShorter(b[1..]);
    }
  }

  lemma {:induction false} NatShorter(b: Bytes)
    ensures GetNat(b).Parsed? ==> |GetNat(b).rest| < |b|
  {
    if |b| >= 2 {
      NatShorter(b[2..]);
    }
  }

  function GetMutations(b: Bytes): Parsed<seq<Mutation>>
    decreases |b|
  {
    if |b| == 0 then Failed
    else if b[0] == 0 then Parsed([], b[1..])
    else
      MutationShorter(b[1..]);
      match GetMutation(b[1..])
      case Failed => Failed
      case Parsed(m, rest) =>
        match GetMutations(rest)
        case Failed => Failed
        case Parsed(ms, rest') => Parsed([m] + ms, rest')
  }

  lemma MutationsStep(b: Bytes, m: Mutation, rest: Bytes, ms: seq<Mutation>, rest': Bytes)
    requires |b| > 0 && b[0] != 0 && GetMutation(b[1..]) == Parsed(m, rest) && GetMutations(rest) == Parsed(ms, rest')
    ensures GetMutations(b) == Parsed([m] + ms, rest')
  {
    hide GetMutation;
  }

  lemma {:induction false} MutationsRoundTrip(ms: seq<Mutation>, rest: Bytes)
    ensures GetMutations(PutMutations(ms) + rest) == Parsed(ms, rest)
    decreases |ms|
  {
    if ms == [] {
      assert ([0] + rest)[1..] == rest;
    } else {
      MutationsRoundTrip(ms[1..], rest);
      MutationsHead(ms, rest);
    }
  }

  lemma Behind(tag: byte, a: Bytes, b: Bytes, rest: Bytes)
    ensures ([tag] + (a + b) + rest)[0] == tag && ([tag] + (a + b) + rest)[1..] == a + (b + rest)
  {
    Regrouped(a, b, rest);
    assert ([tag] + (a + b) + rest)[1..] == a + b + rest;
  }

  lemma MutationsHead(ms: seq<Mutation>, rest: Bytes)
    requires ms != [] && GetMutations(PutMutations(ms[1..]) + rest) == Parsed(ms[1..], rest)
    ensures GetMutations(PutMutations(ms) + rest) == Parsed(ms, rest)
  {
    hide PutMutation, GetMutation, GetMutations;
    var m, t := PutMutation(ms[0]), PutMutations(ms[1..]);
    var b := PutMutations(ms) + rest;
    MutationRoundTrip(ms[0], t + rest);
    Behind(1, m, t, rest);
    MutationsStep(b, ms[0], t + rest, ms[1..], rest);
    assert [ms[0]] + ms[1..] == ms;
  }

  // Entries ------------------------------------------------------------------

  function Serialize(e: LogEntry): Bytes {
    match e
    case SubmitEntry(t, ms) => [0] + (PutInt(t) + PutMutations(ms))
    case SubmitCommitEntry(t, s, ms) => [1] + (PutInt(t) + (PutInt(s) + PutMutations(ms)))
    case CommitEntry(t, s) => [2] + (PutInt(t) + PutInt(s))
  }

  function Parse(b: Bytes): Option<LogEntry> {
    if |b| == 0 then None
    else
      var t := GetInt(b[1..]);
      if t.Failed? then None
      else if b[0] == 0 then
        var ms := GetMutations(t.rest);
        if ms.Failed? then None else Some(SubmitEntry(t.value, ms.value))
      else
        var s := GetInt(t.rest);
        if s.Failed? then None
        else if b[0] == 2 then Some(CommitEntry(t.value, s.value))
        else
          var ms := GetMutations(s.rest);
          if ms.Failed? then None else Some(SubmitCommitEntry(t.value, s.value, ms.value))
  }

  lemma EntryRoundTrip(e: LogEntry)
    ensures Parse(Serialize(e)) == Some(e)
  {
    hide PutInt, GetInt, PutMutations, GetMutations;
    match e {
      case SubmitEntry(t, ms) =>
        IntRoundTrip(t, PutMutations(ms));
        MutationsRoundTrip(ms, []);
        assert PutMutations(ms) + [] == PutMutations(ms);
      case SubmitCommitEntry(t, s, ms) =>
        IntRoundTrip(t, PutInt(s) + PutMutations(ms));
        IntRoundTrip(s, PutMutations(ms));
        MutationsRoundTrip(ms, []);
        assert PutMutations(ms) + [] == PutMutations(ms);
      case CommitEntry(t, s) =>
        IntRoundTrip(t, PutInt(s));
        IntRoundTrip(s, []);
        assert PutInt(s) + [] == PutInt(s);
    }
  }

  function FirstBytes(b: Bytes): Bytes {
    seq(16, i requires 0 <= i => if i < |b| then b[i] else 0)
  }

  function Plain(): Codec {
    Codec(Serialize, Parse, FirstBytes)
  }

  /** Every entry whose message is not too long can be logged in this format. */
  lemma PlainLogs(e: LogEntry)
    ensures Hashing(Plain())
    ensures Loggable(Plain(), e) <==> |Serialize(e)| < 0x8000_0000
  {
    EntryRoundTrip(e);
  }

  /** A log of two transactions, one submitted apart and one merged, in this format. */
  lemma SomeLog()
    ensures var es := [SubmitEntry(1, [Mutation(MutationType.Insert, 0, 1, [7])]), CommitEntry(1, 2),
                       SubmitCommitEntry(2, 3, [])];
            AllLoggable(Plain(), es) && forall junk ::
                ReplayFrom(Plain(), Frames(Plain(), es), 0, junk) == Outcome(es, Complete)
  {
    hide ReplayFrom, Frames;
    var ms := [Mutation(MutationType.Insert, 0, 1, [7])];
    var es := [SubmitEntry(1, ms), CommitEntry(1, 2), SubmitCommitEntry(2, 3, [])];
    assert ms[1..] == [];
    assert |PutMutation(ms[0])| < 100;
    assert |PutMutations(ms)| < 200;
    assert |Serialize(es[0])| < 300 && |Serialize(es[1])| < 300 && |Serialize(es[2])| < 300;
    forall i | 0 <= i < |es| ensures Loggable(Plain(), es[i]) {
      PlainLogs(es[i]);
    }
    PlainLogs(es[0]);
    forall junk ensures ReplayFrom(Plain(), Frames(Plain(), es), 0, junk) == Outcome(es, Complete) {
      LogRoundTrip(Plain(), es, junk);
    }
  }
}

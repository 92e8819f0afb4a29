/** Sending a file in pieces: the chunk size declared to TikTok, its PUTs, and the PATCHes of a tus upload. */
module Upload {
  import opened Bytes

  const MIB := 1024 * 1024
  const MAX_CHUNK := 64 * MIB
  const MIN_CHUNK := 5 * MIB
  const TUS_CHUNK := 32 * MIB
  const MAX_COUNT := 1000

  function Min(a: int, b: int): int { if a < b then a else b }

  function Max(a: int, b: int): int { if a < b then b else a }

  /** Division rounded up. */
  function Ceil(a: nat, b: nat): nat
    requires 0 < b
  {
    (a + b - 1) / b
  }

  function ChunkSize(size: nat): (c: nat)
    ensures MIN_CHUNK <= c <= MAX_CHUNK
  {
    Min(MAX_CHUNK, Max(MIN_CHUNK, Ceil(size, MAX_COUNT)))
  }

  /** It is the least size from 5 to 64 MiB for which 1000 chunks are enough, or 64 MiB. */
  lemma ChunkLeast(size: nat)
    ensures var c := ChunkSize(size);
            && 5 * 1024 * 1024 <= c <= 64 * 1024 * 1024
            && (c < 64 * 1024 * 1024 ==> size <= 1000 * c)
            && (5 * 1024 * 1024 < c ==> 1000 * (c - 1) < size)
  {}

  function TotalChunks(size: nat): nat { Ceil(size, ChunkSize(size)) }

  /** What the first request announces as chunk size: a file of one chunk is announced whole. */
  function DeclaredChunk(size: nat): nat { if TotalChunks(size) == 1 then size else ChunkSize(size) }

  // ---------------------------------------------------------------- rounding up

  lemma CeilAtMost(a: nat, b: nat, n: nat)
    requires 0 < b
    ensures Ceil(a, b) <= n <==> a <= n * b
  {
    var q, r := (a + b - 1) / b, (a + b - 1) % b;
    assert a + b - 1 == q * b + r;
    if q <= n {
      assert q * b <= n * b;
    } else {
      assert (n + 1) * b <= q * b;
      assert (n + 1) * b == n * b + b;
    }
  }

  lemma CeilStep(a: nat, b: nat)
    requires 0 < b < a
    ensures Ceil(a, b) == 1 + Ceil(a - b, b)
  {
    var x := a - b + b - 1;
    var q, r := x / b, x % b;
    assert x == q * b + r && (q + 1) * b == q * b + b;
    Cut(x + b, q + 1, r, b);
  }

  /** The number of chunks stays within the 1000 that the service allows exactly up to 64000 MiB. */
  lemma CountLimit(size: nat)
    ensures TotalChunks(size) <= MAX_COUNT <==> size <= 64000 * MIB
  {
    var c := ChunkSize(size);
    CeilAtMost(size, c, MAX_COUNT);
    CeilAtMost(size, MAX_COUNT, Ceil(size, MAX_COUNT));
    assert size <= Ceil(size, MAX_COUNT) * MAX_COUNT;
  }

  // ---------------------------------------------------------------- the pieces

  /** One request: where its first byte belongs in the file, and its body. */
  datatype Part = Part(start: nat, body: seq<Byte>)

  function Joined(parts: seq<Part>): seq<Byte> {
    if parts == [] then [] else parts[0].body + Joined(parts[1..])
  }

  /** Each part starts where the ones before it end. */
  ghost predicate Consecutive(parts: seq<Part>, start: nat) {
    parts == [] || (parts[0].start == start && Consecutive(parts[1..], start + |parts[0].body|))
  }

  /** All parts are full but the last, which holds at least one byte. */
  ghost predicate FullButLast(parts: seq<Part>, chunk: nat) {
    forall i :: 0 <= i < |parts| ==>
      if i < |parts| - 1 then |parts[i].body| == chunk else 0 < |parts[i].body| <= chunk
  }

  /** The loop of both uploads, from a position on. */
  function Parts(file: seq<Byte>, start: nat, chunk: nat): (r: seq<Part>)
    requires 0 < chunk
    decreases |file| - start
  {
    if |file| <= start then []
    else [Part(start, file[start..Min(|file|, start + chunk)])] + Parts(file, start + chunk, chunk)
  }

  /** The parts partition the file in order: no gap, no overlap, no empty part, and as many as the
      rounded-up division says. */
  lemma {:induction false} PartsTile(file: seq<Byte>, start: nat, chunk: nat)
    requires 0 < chunk && start <= |file|
    ensures var parts := Parts(file, start, chunk);
            && Joined(parts) == file[start..]
            && Consecutive(parts, start)
            && FullButLast(parts, chunk)
            && |parts| == Ceil(|file| - start, chunk)
    decreases |file| - start
  {
    if start < |file| {
      var end := Min(|file|, start + chunk);
      var first, rest := Part(start, file[start..end]), Parts(file, start + chunk, chunk);
      assert ([first] + rest)[1..] == rest;
      if start + chunk < |file| {
        PartsTile(file, start + chunk, chunk);
        CeilStep(|file| - start, chunk);
        assert file[start..end] + file[end..] == file[start..];
        assert rest != [];
      } else {
        assert rest == [];
        assert file[start..end] == file[start..];
        CeilAtMost(|file| - start, chunk, 1);
        CeilAtMost(|file| - start, chunk, 0);
      }
    } else {
      CeilAtMost(0, chunk, 0);
    }
  }

  // ---------------------------------------------------------------- the two loops

  /** A PUT with the inclusive range it names in `Content-Range`. */
  datatype Put = Put(first: int, last: int, total: int, body: seq<Byte>)

  function PutOf(p: Part, total: nat): Put { Put(p.start, p.start + |p.body| - 1, total, p.body) }

  function PutsOf(parts: seq<Part>, total: nat): (r: seq<Put>)
    ensures |r| == |parts|
  {
    seq(|parts|, i requires 0 <= i < |parts| => PutOf(parts[i], total))
  }

  lemma PutsMore(parts: seq<Part>, p: Part, total: nat)
    ensures PutsOf(parts + [p], total) == PutsOf(parts, total) + [PutOf(p, total)]
  {}

  /** The piece at a position, and what is left after it. */
  lemma NextPart(file: seq<Byte>, start: nat, chunk: nat, sent: seq<Part>) returns (p: Part)
    requires 0 < chunk && start < |file|
    ensures p == Part(start, file[start..Min(|file|, start + chunk)])
    ensures sent + Parts(file, start, chunk) == sent + [p] + Parts(file, start + chunk, chunk)
  {
    p := Part(start, file[start..Min(|file|, start + chunk)]);
    assert sent + ([p] + Parts(file, start + chunk, chunk)) == sent + [p] + Parts(file, start + chunk, chunk);
  }

  method UploadChunks(file: seq<Byte>, chunk: nat) returns (puts: seq<Put>)
    requires 0 < chunk
    ensures puts == PutsOf(Parts(file, 0, chunk), |file|)
  {
    puts := [];
    var start := 0;
    ghost var sent: seq<Part> := [];
    while start < |file|
      invariant 0 <= start
      invariant sent + Parts(file, start, chunk) == Parts(file, 0, chunk) && puts == PutsOf(sent, |file|)
      decreases |file| - start
    {
      var end := Min(|file|, start + chunk) - 1;
      var length := end - start + 1;
      ghost var p := NextPart(file, start, chunk, sent);
      PutsMore(sent, p, |file|);
      puts := puts + [Put(start, end, |file|, file[start..start + length])];
      sent := sent + [p];
      start := start + chunk;
    }
    assert sent + [] == sent;
  }

  method UploadTus(file: seq<Byte>) returns (patches: seq<Part>)
    ensures patches == Parts(file, 0, 32 * 1024 * 1024)
  {
    patches := [];
    var offset := 0;
    while offset < |file|
      invariant 0 <= offset
      invariant patches + Parts(file, offset, TUS_CHUNK) == Parts(file, 0, TUS_CHUNK)
      decreases |file| - offset
    {
      var length := Min(TUS_CHUNK, |file| - offset);
      var patch := Part(offset, file[offset..offset + length]);
      ghost var p := NextPart(file, offset, TUS_CHUNK, patches);
      patches := patches + [patch];
      offset := offset + TUS_CHUNK;
    }
    assert patches + [] == patches;
  }

  // ---------------------------------------------------------------- what the services see

  /** The range named is inside the file and the body holds those bytes. */
  predicate Faithful(p: Put, file: seq<Byte>) {
    0 <= p.first <= p.last < |file| == p.total && p.body == file[p.first..p.last + 1]
  }

  /** The PUTs of an upload name adjacent ranges that cover the file from its first byte to its last,
      and carry exactly those bytes. */
  lemma RangesTile(file: seq<Byte>, chunk: nat)
    requires 0 < chunk
    ensures var puts := PutsOf(Parts(file, 0, chunk), |file|);
            && (forall i :: 0 <= i < |puts| ==>
                  && 0 <= puts[i].first <= puts[i].last < |file| == puts[i].total
                  && puts[i].body == file[puts[i].first..puts[i].last + 1])
            && (forall i, j :: 0 <= i < j < |puts| && j == i + 1 ==> puts[j].first == puts[i].last + 1)
            && (puts != [] ==> puts[0].first == 0 && puts[|puts| - 1].last == |file| - 1)
            && (puts == [] <==> file == [])
  {
    var parts := Parts(file, 0, chunk);
    PartsAt(file, 0, chunk);
    PutsFaithful(file, parts);
  }

  /** As many PUTs are made as were announced, and every one but the last has the announced size; if
      there is only one, it has. */
  lemma AsAnnounced(file: seq<Byte>)
    ensures var puts := PutsOf(Parts(file, 0, ChunkSize(|file|)), |file|);
            && |puts| == TotalChunks(|file|)
            && (forall i :: 0 <= i < |puts| - 1 ==> |puts[i].body| == DeclaredChunk(|file|))
            && (|puts| == 1 ==> |puts[0].body| == DeclaredChunk(|file|) == |file|)
  {
    ManyPuts(file, ChunkSize(|file|));
  }

  lemma ManyPuts(file: seq<Byte>, chunk: nat)
    requires 0 < chunk
    ensures var puts := PutsOf(Parts(file, 0, chunk), |file|);
            && |puts| == Ceil(|file|, chunk)
            && (forall i :: 0 <= i < |puts| - 1 ==> |puts[i].body| == chunk)
            && (|puts| == 1 ==> puts[0].body == file)
  {
    PartsTile(file, 0, chunk);
    PutsFull(Parts(file, 0, chunk), |file|, chunk);
    OnlyPut(Parts(file, 0, chunk), file);
  }

  lemma OnlyPut(parts: seq<Part>, file: seq<Byte>)
    requires Joined(parts) == file[0..]
    ensures |parts| == 1 ==> PutsOf(parts, |file|)[0].body == file
  {
    if |parts| == 1 { assert Joined(parts[1..]) == [] && parts[0].body + [] == parts[0].body; }
  }

  lemma PutsFaithful(file: seq<Byte>, parts: seq<Part>)
    requires forall i :: 0 <= i < |parts| ==> LiesIn(parts[i], file)
    ensures forall i :: 0 <= i < |parts| ==> Faithful(PutsOf(parts, |file|)[i], file)
  {
    forall i | 0 <= i < |parts| ensures Faithful(PutsOf(parts, |file|)[i], file) { assert LiesIn(parts[i], file); }
  }

  lemma PutsFull(parts: seq<Part>, total: nat, chunk: nat)
    requires FullButLast(parts, chunk)
    ensures forall i :: 0 <= i < |parts| - 1 ==> |PutsOf(parts, total)[i].body| == chunk
  {}

  /** A part that holds bytes of the file from the place it names. */
  predicate LiesIn(p: Part, file: seq<Byte>) {
    p.body != [] && p.start + |p.body| <= |file| && p.body == file[p.start..p.start + |p.body|]
  }

  predicate Ends(p: Part, file: seq<Byte>) { p.start + |p.body| == |file| }

  /** Where each part lies. */
  lemma {:induction false} PartsAt(file: seq<Byte>, start: nat, chunk: nat)
    requires 0 < chunk
    ensures var parts := Parts(file, start, chunk);
            && (forall i :: 0 <= i < |parts| ==> LiesIn(parts[i], file))
            && (forall i, j :: 0 <= i < j < |parts| && j == i + 1 ==> parts[j].start == parts[i].start + |parts[i].body|)
            && (parts != [] ==> parts[0].start == start && Ends(parts[|parts| - 1], file))
    decreases |file| - start
  {
    if start < |file| {
      PartsAt(file, start + chunk, chunk);
    }
  }

  /** A tus server takes a PATCH only at the offset it has reached; it takes them all and ends with
      the file. */
  function Taken(patches: seq<Part>, stored: seq<Byte>): seq<Byte> {
    if patches == [] || patches[0].start != |stored| then stored
    else Taken(patches[1..], stored + patches[0].body)
  }

  lemma {:induction false} ConsecutiveTaken(patches: seq<Part>, stored: seq<Byte>)
    requires Consecutive(patches, |stored|)
    ensures Taken(patches, stored) == stored + Joined(patches)
    decreases |patches|
  {
    if patches != [] {
      ConsecutiveTaken(patches[1..], stored + patches[0].body);
      assert stored + patches[0].body + Joined(patches[1..]) == stored + (patches[0].body + Joined(patches[1..]));
    }
  }

  lemma TusStoresFile(file: seq<Byte>)
    ensures Taken(Parts(file, 0, 32 * 1024 * 1024), []) == file
  {
    PartsTile(file, 0, TUS_CHUNK);
    ConsecutiveTaken(Parts(file, 0, TUS_CHUNK), []);
    assert file[0..] == file;
    assert [] + file == file;
  }
}

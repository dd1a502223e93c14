/**
 Uploading a batch of attachments: parts streamed from the file and put together again by part number, and a handful of
 workers that share one iterator and fill one list of receipts.
 */
module Uploads {
  import opened Basics

  const CHUNK_SIZE := 0x10000
  const MAX_WORKERS := 8
  const MAX_ATTEMPTS := 5

  // ---- one part ----

  /** How many bytes one `read(size)` at `position` returns: short reads are allowed, empty ones only at the end. */
  ghost predicate Reads(file: Bytes, granted: (int, int) -> int) {
    forall position, size {:trigger granted(position, size)} :: position >= 0 && size > 0 ==>
      if position >= |file| then granted(position, size) == 0
      else 1 <= granted(position, size) <= Min(size, |file| - position)
  }

  /** The bytes of the file in `[offset, offset + length)`. */
  function PartOf(file: Bytes, offset: nat, length: nat): Bytes {
    file[Min(offset, |file|)..Min(offset + length, |file|)]
  }

  lemma FlattenAppend(chunks: seq<Bytes>, chunk: Bytes)
    ensures Flatten(chunks + [chunk]) == Flatten(chunks) + chunk
  {
    assert (chunks + [chunk])[..|chunks|] == chunks;
  }

  /** `_stream_file_part`: whatever the sizes of the reads, the chunks are the part, in pieces of at most 64 KB. */
  method StreamFilePart(file: Bytes, offset: nat, length: nat, granted: (int, int) -> int) returns (chunks: seq<Bytes>)
    requires Reads(file, granted)
    ensures Flatten(chunks) == PartOf(file, offset, length)
    ensures forall i :: 0 <= i < |chunks| ==> 1 <= |chunks[i]| <= 65_536
  {
    chunks := [];
    var position, remaining := offset, length;
    while remaining > 0
      invariant position + remaining == offset + length && offset <= position && remaining >= 0
      invariant position == offset || position <= |file|
      invariant Flatten(chunks) == file[Min(offset, |file|)..Min(position, |file|)]
      invariant forall i :: 0 <= i < |chunks| ==> 1 <= |chunks[i]| <= CHUNK_SIZE
      decreases remaining
    {
      var count := granted(position, Min(CHUNK_SIZE, remaining));
      if count == 0 { break; }
      var data := file[position..position + count];
      FlattenAppend(chunks, data);
      chunks := chunks + [data];
      position, remaining := position + count, remaining - count;
    }
  }

  /** `_compute_content_sha256`: one pass over the file in 64 KB reads, whatever their sizes. */
  method ComputeContentSha256(file: Bytes, granted: (int, int) -> int, sha256: Bytes -> string) returns (digest: string)
    requires Reads(file, granted)
    ensures digest == sha256(file)
  {
    var seen := [];
    var position := 0;
    while true
      invariant position <= |file| && Flatten(seen) == file[..position]
      decreases |file| - position
    {
      var count := granted(position, CHUNK_SIZE);
      if count == 0 { break; }
      var chunk := file[position..position + count];
      FlattenAppend(seen, chunk);
      seen, position := seen + [chunk], position + count;
    }
    assert file[..position] == file;
    digest := sha256(Flatten(seen));
  }

  datatype Part = Part(number: nat, offset: nat, length: nat)

  datatype PartRef = PartRef(number: nat, etag: string)

  /** The answer to one presigned PUT, or the connection error in its place. */
  datatype Put = Answer(status: nat, etag: Option<string>) | ConnectionError

  datatype Uploaded = Uploaded(part: PartRef) | Exhausted | Rejected(status: nat) | NoEtag

  predicate Retryable(put: Put) {
    put.ConnectionError? || put.status == 500 || put.status == 502 || put.status == 503 || put.status == 504
  }

  /** What an answer that is not retried means. */
  function Verdict(put: Put, number: nat): Uploaded
    requires !Retryable(put)
  {
    if put.status != 200 then Rejected(put.status)
    else if put.etag.None? then NoEtag
    else Uploaded.Uploaded(PartRef(number, put.etag.value))
  }

  /** What the answers to a part come to: the first that is not retryable, if one comes in time. */
  function Settled(puts: seq<Put>, number: nat): Uploaded {
    if puts == [] then Exhausted else if Retryable(puts[0]) then Settled(puts[1..], number) else Verdict(puts[0], number)
  }

  /** The answers by their status: 500, 502, 503, 504 and connection errors are tried again, and are all that is; of the rest
      a 200 with an ETag is the part, one without is an error, and any other status is rejected as itself. */
  lemma SettledByStatus(put: Put, rest: seq<Put>, number: nat)
    ensures put.ConnectionError? || put.status in {500, 502, 503, 504} ==>
              Settled([put] + rest, number) == Settled(rest, number)
    ensures put.Answer? && put.status !in {500, 502, 503, 504} ==>
              Settled([put] + rest, number) ==
              if put.status != 200 then Rejected(put.status)
              else if put.etag == None then NoEtag
              else Uploaded.Uploaded(PartRef(number, put.etag.value))
    ensures Settled([], number) == Exhausted
  {
    assert ([put] + rest)[1..] == rest;
  }

  /** `_upload_part`: every attempt streams the whole part afresh, and the first answer that is not retryable decides;
      five retryable ones exhaust it. */
  method UploadPart(file: Bytes, part: Part, granted: (int, int) -> int, puts: seq<Put>)
    returns (result: Uploaded, bodies: seq<Bytes>)
    requires Reads(file, granted) && |puts| == MAX_ATTEMPTS
    ensures 1 <= |bodies| <= MAX_ATTEMPTS == 5
    ensures forall i :: 0 <= i < |bodies| ==> bodies[i] == PartOf(file, part.offset, part.length)
    ensures forall i :: 0 <= i < |bodies| - 1 ==> Retryable(puts[i])
    ensures if result.Exhausted? then |bodies| == MAX_ATTEMPTS && Retryable(puts[MAX_ATTEMPTS - 1])
            else !Retryable(puts[|bodies| - 1]) && result == Verdict(puts[|bodies| - 1], part.number)
    ensures result == Settled(puts, part.number)
  {
    bodies := [];
    var attempt := 0;
    while attempt < MAX_ATTEMPTS
      invariant |bodies| == attempt <= MAX_ATTEMPTS
      invariant Settled(puts, part.number) == Settled(puts[attempt..], part.number)
      invariant forall i :: 0 <= i < attempt ==>
                  Retryable(puts[i]) && bodies[i] == PartOf(file, part.offset, part.length)
    {
      var chunks := StreamFilePart(file, part.offset, part.length, granted);
      bodies := bodies + [Flatten(chunks)];
      var put := puts[attempt];
      attempt := attempt + 1;
      if put.Answer? && put.status != 500 && put.status != 502 && put.status != 503 && put.status != 504 {
        if put.status != 200 { return Rejected(put.status), bodies; }
        if put.etag == None { return NoEtag, bodies; }
        return Uploaded.Uploaded(PartRef(part.number, put.etag.value)), bodies;
      }
    }
    result := Exhausted;
  }

  // ---- the parts of one document ----

  function Insert(ref: PartRef, refs: seq<PartRef>): seq<PartRef> {
    if refs == [] || ref.number <= refs[0].number then [ref] + refs else [refs[0]] + Insert(ref, refs[1..])
  }

  /** `sorted(completed_parts, key=part_number)`. */
  function Sorted(refs: seq<PartRef>): seq<PartRef> {
    if refs == [] then [] else Insert(refs[0], Sorted(refs[1..]))
  }

  function InsertPart(part: Part, parts: seq<Part>): seq<Part> {
    if parts == [] || part.number <= parts[0].number then [part] + parts
    else [parts[0]] + InsertPart(part, parts[1..])
  }

  function PartsByNumber(parts: seq<Part>): seq<Part> {
    if parts == [] then [] else InsertPart(parts[0], PartsByNumber(parts[1..]))
  }

  /** The first of `ordered` begins at `at`, and each begins where the one before it ends. */
  predicate Tiles(ordered: seq<Part>, at: nat, end: nat) {
    if ordered == [] then at == end
    else ordered[0].offset == at && Tiles(ordered[1..], at + ordered[0].length, end)
  }

  predicate DistinctNumbers(parts: seq<Part>) {
    forall i, j :: 0 <= i < j < |parts| ==> parts[i].number != parts[j].number
  }

  /** The upload plan covers `size` bytes, each once, in the order of its part numbers. The plan may list its parts in any
      order. */
  predicate TilesByNumber(plan: seq<Part>, size: nat) {
    DistinctNumbers(plan) && Tiles(PartsByNumber(plan), 0, size)
  }

  /** One reference for each part of the plan, in the order of the plan: what gathering the uploads yields. */
  predicate RefsOf(refs: seq<PartRef>, plan: seq<Part>) {
    |refs| == |plan| && forall i :: 0 <= i < |plan| ==> refs[i].number == plan[i].number
  }

  /** The store holds every part of the plan under its number. */
  predicate Holds(stored: map<nat, Bytes>, file: Bytes, plan: seq<Part>) {
    forall i :: 0 <= i < |plan| ==>
      plan[i].number in stored && stored[plan[i].number] == PartOf(file, plan[i].offset, plan[i].length)
  }

  /** The document the store builds from a list of parts. */
  function Assembled(refs: seq<PartRef>, stored: map<nat, Bytes>): Option<Bytes> {
    if refs == [] then Some([])
    else
      var rest := Assembled(refs[1..], stored);
      if refs[0].number in stored && rest.Some? then Some(stored[refs[0].number] + rest.value) else None
  }

  lemma {:induction false} InsertMatches(ref: PartRef, part: Part, refs: seq<PartRef>, parts: seq<Part>)
    requires ref.number == part.number && RefsOf(refs, parts)
    ensures RefsOf(Insert(ref, refs), InsertPart(part, parts))
  {
    if refs != [] && ref.number > refs[0].number {
      InsertMatches(ref, part, refs[1..], parts[1..]);
    }
  }

  lemma {:induction false} SortMatches(refs: seq<PartRef>, plan: seq<Part>)
    requires RefsOf(refs, plan)
    ensures RefsOf(Sorted(refs), PartsByNumber(plan))
  {
    if refs != [] {
      SortMatches(refs[1..], plan[1..]);
      InsertMatches(refs[0], plan[0], Sorted(refs[1..]), PartsByNumber(plan[1..]));
    }
  }

  lemma {:induction false} InsertMember(part: Part, parts: seq<Part>, p: Part)
    ensures p in InsertPart(part, parts) ==> p == part || p in parts
  {
    if parts != [] && part.number > parts[0].number {
      InsertMember(part, parts[1..], p);
    }
  }

  lemma {:induction false} SortMember(plan: seq<Part>, p: Part)
    ensures p in PartsByNumber(plan) ==> p in plan
  {
    if plan != [] {
      SortMember(plan[1..], p);
      InsertMember(plan[0], PartsByNumber(plan[1..]), p);
    }
  }

  /** `ordered` tiles `[at, end)`, and the store holds each of its parts. */
  lemma {:induction false} AssembledTiles(
    file: Bytes, refs: seq<PartRef>, ordered: seq<Part>, stored: map<nat, Bytes>, at: nat)
    requires RefsOf(refs, ordered) && Tiles(ordered, at, |file|) && at <= |file|
    requires forall p :: p in ordered ==> p.number in stored && stored[p.number] == PartOf(file, p.offset, p.length)
    ensures Assembled(refs, stored) == Some(file[at..])
  {
    if refs == [] {
      assert file[at..] == [];
    } else {
      var next := at + ordered[0].length;
      TilesForward(ordered[1..], next, |file|);
      AssembledTiles(file, refs[1..], ordered[1..], stored, next);
      assert ordered[0] in ordered;
      assert file[at..] == file[at..next] + file[next..];
    }
  }

  lemma {:induction false} TilesForward(ordered: seq<Part>, at: nat, end: nat)
    requires Tiles(ordered, at, end)
    ensures at <= end
  {
    if ordered != [] { TilesForward(ordered[1..], at + ordered[0].length, end); }
  }

  /** Upload reassembly: when the plan tiles the file, the parts joined in the order of the document request are the whole
      file. */
  lemma Reassembly(file: Bytes, plan: seq<Part>, refs: seq<PartRef>, stored: map<nat, Bytes>)
    requires TilesByNumber(plan, |file|) && RefsOf(refs, plan) && Holds(stored, file, plan)
    ensures Assembled(Sorted(refs), stored) == Some(file)
  {
    var ordered := PartsByNumber(plan);
    SortMatches(refs, plan);
    forall p | p in ordered ensures p.number in stored && stored[p.number] == PartOf(file, p.offset, p.length) {
      SortMember(plan, p);
      var i :| 0 <= i < |plan| && plan[i] == p;
    }
    AssembledTiles(file, Sorted(refs), ordered, stored, 0);
    assert file[0..] == file;
  }

  /** An order in which `n` concurrent uploads may finish. */
  predicate Completion(order: seq<nat>, n: nat) {
    |order| == n && (forall k :: 0 <= k < n ==> order[k] < n) && forall i :: 0 <= i < n ==> i in order
  }

  /** Slot `i` is filled, with what part `i` came to. */
  predicate Filled(slots: seq<Option<PartRef>>, plan: seq<Part>, puts: seq<seq<Put>>, i: nat)
    requires |slots| == |plan| == |puts| && i < |plan|
  {
    slots[i].Some? && Settled(puts[i], plan[i].number) == Uploaded.Uploaded(slots[i].value)
  }

  lemma {:induction false} SettledNumber(puts: seq<Put>, number: nat)
    ensures Settled(puts, number).Uploaded? ==> Settled(puts, number).part.number == number
  {
    if puts != [] { SettledNumber(puts[1..], number); }
  }

  /** The upload of one document, whatever the order in which its concurrent parts finish: it succeeds exactly when every
      part does, and then the request lists the parts by number and the store can build the whole file from it. */
  method UploadDocument(file: Bytes, plan: seq<Part>, granted: (int, int) -> int, sha256: Bytes -> string,
                        puts: seq<seq<Put>>, order: seq<nat>)
    returns (parts: Option<seq<PartRef>>, digest: string, stored: map<nat, Bytes>)
    requires Reads(file, granted) && TilesByNumber(plan, |file|) && Completion(order, |plan|)
    requires |puts| == |plan| && forall i :: 0 <= i < |puts| ==> |puts[i]| == MAX_ATTEMPTS
    ensures parts.Some? <==> forall i :: 0 <= i < |plan| ==> Settled(puts[i], plan[i].number).Uploaded?
    ensures parts.Some? ==>
              && parts.value == Sorted(seq(|plan|, i requires 0 <= i < |plan| => Settled(puts[i], plan[i].number).part))
              && Assembled(parts.value, stored) == Some(file) && digest == sha256(file)
  {
    hide TilesByNumber, Settled, PartOf, Reads, Completion;
    digest := ComputeContentSha256(file, granted, sha256);
    CompletionFacts(order, |plan|);
    var slots: seq<Option<PartRef>> := seq(|plan|, _ => None);
    stored := map[];
    for k := 0 to |order|
      invariant |slots| == |plan|
      invariant forall i :: 0 <= i < |plan| ==>
                  if i in order[..k] then Filled(slots, plan, puts, i) else slots[i].None?
      invariant forall i :: 0 <= i < |plan| && i in order[..k] ==>
                  && plan[i].number in stored
                  && stored[plan[i].number] == PartOf(file, plan[i].offset, plan[i].length)
    {
      var i := order[k];
      var result, bodies := UploadPart(file, plan[i], granted, puts[i]);
      if !result.Uploaded? { return None, digest, stored; }
      assert order[..k + 1] == order[..k] + [i];
      OthersKept(plan, |file|, i);
      slots, stored := slots[i := Some(result.part)], stored[plan[i].number := bodies[|bodies| - 1]];
    }
    assert order[..|order|] == order;
    var refs := seq(|plan|, i requires 0 <= i < |plan| => slots[i].value);
    forall i | 0 <= i < |plan| ensures refs[i].number == plan[i].number && refs[i] == Settled(puts[i], plan[i].number).part {
      assert Filled(slots, plan, puts, i);
      SettledNumber(puts[i], plan[i].number);
    }
    assert refs == seq(|plan|, i requires 0 <= i < |plan| => Settled(puts[i], plan[i].number).part);
    Reassembly(file, plan, refs, stored);
    parts := Some(Sorted(refs));
  }

  lemma CompletionFacts(order: seq<nat>, n: nat)
    requires Completion(order, n)
    ensures |order| == n && (forall k :: 0 <= k < n ==> order[k] < n) && forall i :: 0 <= i < n ==> i in order
  {}

  lemma OthersKept(plan: seq<Part>, size: nat, i: nat)
    requires TilesByNumber(plan, size) && i < |plan|
    ensures forall j :: 0 <= j < |plan| && j != i ==> plan[j].number != plan[i].number
  {}

  // ---- validation ----

  datatype FileState = Missing | NotRegular | Regular(size: nat)

  datatype Attachment = Attachment(key: string, path: string, size: nat)

  datatype Problem = DuplicateKey(key: string) | NotFound(path: string) | Irregular(path: string) | Empty(path: string)
                   | Changed(path: string, expected: nat, found: nat)

  /** What is wrong with attachment `i`, in the order of the checks. */
  function ProblemAt(attachments: seq<Attachment>, i: nat, file: string -> FileState): Option<Problem>
    requires i < |attachments|
  {
    var a := attachments[i];
    if exists j :: 0 <= j < i && attachments[j].key == a.key then Some(DuplicateKey(a.key))
    else
      match file(a.path)
      case Missing => Some(NotFound(a.path))
      case NotRegular => Some(Irregular(a.path))
      case Regular(size) =>
        if size == 0 then Some(Empty(a.path))
        else if size != a.size then Some(Changed(a.path, a.size, size)) else None
  }

  predicate DistinctKeys(attachments: seq<Attachment>) {
    forall i, j :: 0 <= i < j < |attachments| ==> attachments[i].key != attachments[j].key
  }

  /** Nothing is wrong with a batch exactly when the keys differ and every path is a regular file of the prepared size, which
      is not zero. */
  lemma ValidExactly(attachments: seq<Attachment>, file: string -> FileState)
    ensures (forall i :: 0 <= i < |attachments| ==> ProblemAt(attachments, i, file).None?) <==>
            && DistinctKeys(attachments)
            && forall i :: 0 <= i < |attachments| ==>
                 attachments[i].size > 0 && file(attachments[i].path) == Regular(attachments[i].size)
  {
    forall i | 0 <= i < |attachments|
      ensures ProblemAt(attachments, i, file).None? <==>
              && (forall j :: 0 <= j < i ==> attachments[j].key != attachments[i].key)
              && attachments[i].size > 0 && file(attachments[i].path) == Regular(attachments[i].size)
    {}
  }

  /** Which problem is named: a repeated key before anything about the file, and that by the state of the file. */
  lemma ProblemNames(attachments: seq<Attachment>, i: nat, file: string -> FileState)
    requires i < |attachments|
    ensures var a, p := attachments[i], ProblemAt(attachments, i, file);
            && (p == Some(DuplicateKey(a.key)) <==> exists j :: 0 <= j < i && attachments[j].key == a.key)
            && ((forall j :: 0 <= j < i ==> attachments[j].key != a.key) ==>
                  && (p == Some(NotFound(a.path)) <==> file(a.path) == Missing)
                  && (p == Some(Irregular(a.path)) <==> file(a.path) == NotRegular)
                  && (p == Some(Empty(a.path)) <==> file(a.path) == Regular(0))
                  && (forall found: nat :: p == Some(Changed(a.path, a.size, found)) <==>
                        file(a.path) == Regular(found) && found != 0 && found != a.size))
  {}

  /** `_validate_prepared_attachments`: the first problem of the first attachment that has one. */
  method ValidatePreparedAttachments(attachments: seq<Attachment>, file: string -> FileState)
    returns (problem: Option<Problem>)
    ensures problem.None? <==> forall i :: 0 <= i < |attachments| ==> ProblemAt(attachments, i, file).None?
    ensures problem.Some? ==> exists i :: (
              && 0 <= i < |attachments| && ProblemAt(attachments, i, file) == problem
              && forall j :: 0 <= j < i ==> ProblemAt(attachments, j, file).None?)
    ensures problem.None? ==> DistinctKeys(attachments)
  {
    var seenKeys: set<string> := {};
    for i := 0 to |attachments|
      invariant seenKeys == set j | 0 <= j < i :: attachments[j].key
      invariant forall j :: 0 <= j < i ==> ProblemAt(attachments, j, file).None?
      invariant forall j, k :: 0 <= j < k < i ==> attachments[j].key != attachments[k].key
    {
      var a := attachments[i];
      if a.key in seenKeys {
        problem := Some(DuplicateKey(a.key));
        assert ProblemAt(attachments, i, file) == problem;
        return;
      }
      seenKeys := seenKeys + {a.key};
      var state := file(a.path);
      if state == Missing {
        problem := Some(NotFound(a.path));
        assert ProblemAt(attachments, i, file) == problem;
        return;
      }
      if state == NotRegular {
        problem := Some(Irregular(a.path));
        assert ProblemAt(attachments, i, file) == problem;
        return;
      }
      if state.size == 0 {
        problem := Some(Empty(a.path));
        assert ProblemAt(attachments, i, file) == problem;
        return;
      }
      if state.size != a.size {
        problem := Some(Changed(a.path, a.size, state.size));
        assert ProblemAt(attachments, i, file) == problem;
        return;
      }
    }
    problem := None;
  }

  // ---- the workers of one batch ----

  type Receipt = string

  datatype Worker = Ready | Busy(index: nat) | Exited | Stopped

  datatype Failure = LibraryUploadError | OtherError

  /** The shared iterator and receipt list, the workers, and what they did: who took which attachment, and the receipts
      that uploads returned. */
  datatype Batch = Batch(
    size: nat, next: nat, receipts: seq<Option<Receipt>>, workers: seq<Worker>, failure: Option<Failure>,
    taken: seq<nat>, uploads: seq<(nat, Receipt)>)

  datatype Step = Take(worker: nat) | Finish(worker: nat, receipt: Receipt) | Fail(worker: nat, failure: Failure) | Drain

  function NewBatch(size: nat): Batch {
    Batch(size, 0, seq(size, _ => None), seq(Min(MAX_WORKERS, size), _ => Ready), None, [], [])
  }

  predicate Enabled(b: Batch, step: Step) {
    match step
    case Take(w) => w < |b.workers| && b.workers[w].Ready?
    case Finish(w, _) => w < |b.workers| && b.workers[w].Busy? && b.workers[w].index < |b.receipts|
    case Fail(w, _) => w < |b.workers| && b.workers[w].Busy?
    case Drain => b.failure.Some?
  }

  /** After a failure the other workers may go on until they are cancelled. */
  function Next(b: Batch, step: Step): Batch
    requires Enabled(b, step)
  {
    match step
    case Take(w) =>
      if b.next < b.size
      then b.(next := b.next + 1, workers := b.workers[w := Busy(b.next)], taken := b.taken + [w])
      else b.(workers := b.workers[w := Exited])
    case Finish(w, receipt) =>
      var i := b.workers[w].index;
      b.(receipts := b.receipts[i := Some(receipt)], workers := b.workers[w := Ready],
         uploads := b.uploads + [(i, receipt)])
    case Fail(w, failure) =>
      b.(workers := b.workers[w := Stopped], failure := if b.failure.None? then Some(failure) else b.failure)
    case Drain =>
      b.(workers := seq(|b.workers|, w requires 0 <= w < |b.workers| =>
                          if b.workers[w].Exited? then Exited else Stopped))
  }

  /** The iterator and the receipt list, shared by the workers. */
  class SharedWork {
    const size: nat
    var next: nat
    const receipts: array<Option<Receipt>>

    ghost predicate Backs(b: Batch)
      reads this, receipts
    {
      b.size == size && b.next == next && b.receipts == receipts[..]
    }

    constructor (size: nat)
      ensures Backs(NewBatch(size)) && fresh(receipts)
    {
      this.size, next := size, 0;
      receipts := new Option<Receipt>[size](_ => None);
      new;
      assert receipts[..] == NewBatch(size).receipts;
    }

    /** `next(work)` of one worker. */
    method TakeNext(ghost b: Batch, ghost worker: nat) returns (index: Option<nat>)
      requires Backs(b) && Enabled(b, Take(worker))
      modifies this`next
      ensures Backs(Next(b, Take(worker)))
      ensures Next(b, Take(worker)).workers[worker] == if index.Some? then Busy(index.value) else Exited
    {
      if next >= size { return None; }
      index := Some(next);
      next := next + 1;
    }

    method StoreReceipt(index: nat, receipt: Receipt, ghost b: Batch, ghost worker: nat)
      requires Backs(b) && Enabled(b, Finish(worker, receipt)) && b.workers[worker].index == index
      modifies receipts
      ensures Backs(Next(b, Finish(worker, receipt)))
    {
      receipts[index] := Some(receipt);
    }
  }

  predicate Run(from: Batch, steps: seq<Step>, b: Batch)
    decreases |steps|
  {
    if steps == [] then b == from
    else Enabled(from, steps[0]) && Run(Next(from, steps[0]), steps[1..], b)
  }

  predicate Over(b: Batch) { forall w :: 0 <= w < |b.workers| ==> b.workers[w].Exited? || b.workers[w].Stopped? }

  predicate Shape(b: Batch) {
    && |b.receipts| == b.size && b.next <= b.size && |b.taken| == b.next
    && |b.workers| == Min(MAX_WORKERS, b.size)
    && forall i :: 0 <= i < b.next ==> b.taken[i] < |b.workers|
  }

  /** The attachments taken so far are `0 .. next`: each is in the hands of the one worker that took it, or has its
      receipt, or its worker was stopped. */
  predicate TakenOnce(b: Batch)
    requires Shape(b)
  {
    && (forall w :: 0 <= w < |b.workers| && b.workers[w].Busy? ==>
          var i := b.workers[w].index; i < b.next && b.receipts[i].None? && b.taken[i] == w)
    && (forall i :: 0 <= i < b.next && b.receipts[i].None? ==>
          b.workers[b.taken[i]].Stopped? || b.workers[b.taken[i]] == Busy(i))
    && (forall i :: b.next <= i < b.size ==> b.receipts[i].None?)
    && (forall w :: 0 <= w < |b.workers| && b.workers[w].Exited? ==> b.next == b.size)
    && (forall w :: 0 <= w < |b.workers| && b.workers[w].Stopped? ==> b.failure.Some?)
  }

  /** The receipt list is the record of the uploads, and no attachment was uploaded twice. */
  predicate ReceiptsAreUploads(b: Batch)
    requires Shape(b)
  {
    && (forall k :: 0 <= k < |b.uploads| ==>
          b.uploads[k].0 < b.size && b.receipts[b.uploads[k].0] == Some(b.uploads[k].1))
    && (forall i :: 0 <= i < b.size && b.receipts[i].Some? ==> (i, b.receipts[i].value) in b.uploads)
    && (forall j, k :: 0 <= j < k < |b.uploads| ==> b.uploads[j].0 != b.uploads[k].0)
  }

  predicate Inv(b: Batch) { Shape(b) && TakenOnce(b) && ReceiptsAreUploads(b) }

  lemma FinishKeepsInv(b: Batch, w: nat, receipt: Receipt)
    requires Inv(b) && Enabled(b, Finish(w, receipt))
    ensures Inv(Next(b, Finish(w, receipt)))
  {
    var i := b.workers[w].index;
    var c := Next(b, Finish(w, receipt));
    assert c.uploads[|b.uploads|] == (i, receipt);
    forall k | 0 <= k < c.size && c.receipts[k].Some? ensures (k, c.receipts[k].value) in c.uploads {
      if k != i {
        assert (k, b.receipts[k].value) in b.uploads;
      }
    }
  }

  lemma NextKeepsInv(b: Batch, step: Step)
    requires Inv(b) && Enabled(b, step)
    ensures Inv(Next(b, step))
  {
    if step.Finish? { FinishKeepsInv(b, step.worker, step.receipt); }
  }

  lemma {:induction false} RunKeepsInv(from: Batch, steps: seq<Step>, b: Batch)
    requires Inv(from) && Run(from, steps, b)
    ensures Inv(b) && b.size == from.size
    decreases |steps|
  {
    if steps != [] {
      NextKeepsInv(from, steps[0]);
      RunKeepsInv(Next(from, steps[0]), steps[1..], b);
    }
  }

  /** The failure that a batch reports is the first one; what happens later does not replace it. */
  lemma {:induction false} FirstFailureStays(from: Batch, steps: seq<Step>, b: Batch)
    requires Run(from, steps, b) && from.failure.Some?
    ensures b.failure == from.failure
    decreases |steps|
  {
    if steps != [] { FirstFailureStays(Next(from, steps[0]), steps[1..], b); }
  }

  /** Cancelling the workers after a failure ends the batch. */
  lemma DrainEnds(b: Batch)
    requires Enabled(b, Drain)
    ensures Over(Next(b, Drain)) && Next(b, Drain).receipts == b.receipts && Next(b, Drain).failure == b.failure
  {}

  /** Until a batch is over some worker can act, and each act but the cancellation uses up work. */
  function WorkLeft(b: Batch): nat { (if b.size > b.next then 3 * (b.size - b.next) else 0) + Active(b.workers) }

  function Active(workers: seq<Worker>): nat {
    if workers == [] then 0
    else Active(workers[..|workers| - 1]) + match workers[|workers| - 1]
                                            case Ready => 1
                                            case Busy(_) => 2
                                            case _ => 0
  }

  lemma {:induction false} ActiveUpdate(workers: seq<Worker>, w: nat, worker: Worker)
    requires w < |workers|
    ensures Active(workers[w := worker]) + Active([workers[w]]) == Active(workers) + Active([worker])
  {
    var n := |workers| - 1;
    if w < n {
      ActiveUpdate(workers[..n], w, worker);
      assert workers[w := worker][..n] == workers[..n][w := worker];
    } else {
      assert workers[w := worker][..n] == workers[..n];
      assert [worker][..0] == [] && [workers[w]][..0] == [];
    }
  }

  lemma BatchProgress(b: Batch, step: Step)
    requires Shape(b) && Enabled(b, step) && !step.Drain?
    ensures WorkLeft(Next(b, step)) < WorkLeft(b)
  {
    var w := step.worker;
    ActiveUpdate(b.workers, w, Next(b, step).workers[w]);
    assert forall x: Worker :: [x][..0] == [];
  }

  /** The receipts keyed by attachment: the whole result, or the part that an upload error reports. */
  function Keyed(attachments: seq<Attachment>, receipts: seq<Option<Receipt>>): map<string, Receipt>
    requires |attachments| == |receipts|
  {
    if attachments == [] then map[]
    else
      var n := |attachments| - 1;
      var before := Keyed(attachments[..n], receipts[..n]);
      if receipts[n].Some? then before[attachments[n].key := receipts[n].value] else before
  }

  datatype Result = Receipts(byKey: map<string, Receipt>) | UploadFailed(completed: map<string, Receipt>) | Raised
                  | MissingReceipt

  /** The end of `upload_attachments_to_library`. */
  method CollectReceipts(attachments: seq<Attachment>, receipts: seq<Option<Receipt>>, failure: Option<Failure>)
    returns (result: Result)
    requires |attachments| == |receipts|
    ensures result == Outcome(attachments, receipts, failure)
  {
    if failure == Some(OtherError) { return Raised; }
    var byKey := map[];
    for i := 0 to |attachments|
      invariant byKey == Keyed(attachments[..i], receipts[..i])
      invariant failure.None? ==> forall j :: 0 <= j < i ==> receipts[j].Some?
    {
      if failure == None && receipts[i] == None { return MissingReceipt; }
      assert attachments[..i + 1][..i] == attachments[..i] && receipts[..i + 1][..i] == receipts[..i];
      if receipts[i] != None {
        byKey := byKey[attachments[i].key := receipts[i].value];
      }
    }
    assert attachments[..|attachments|] == attachments && receipts[..|receipts|] == receipts;
    result := if failure == None then Receipts(byKey) else UploadFailed(byKey);
  }

  function Outcome(attachments: seq<Attachment>, receipts: seq<Option<Receipt>>, failure: Option<Failure>): Result
    requires |attachments| == |receipts|
  {
    match failure
    case Some(OtherError) => Raised
    case Some(LibraryUploadError) => UploadFailed(Keyed(attachments, receipts))
    case None =>
      if exists i :: 0 <= i < |receipts| && receipts[i].None? then MissingReceipt
      else Receipts(Keyed(attachments, receipts))
  }

  lemma {:induction false} KeyedAt(attachments: seq<Attachment>, receipts: seq<Option<Receipt>>, key: string)
    requires |attachments| == |receipts| && DistinctKeys(attachments)
    ensures key in Keyed(attachments, receipts) <==>
            exists i :: 0 <= i < |attachments| && attachments[i].key == key && receipts[i].Some?
    ensures forall i :: 0 <= i < |attachments| && attachments[i].key == key && receipts[i].Some? ==>
              Keyed(attachments, receipts)[key] == receipts[i].value
  {
    if attachments != [] {
      var n := |attachments| - 1;
      KeyedAt(attachments[..n], receipts[..n], key);
      forall i | 0 <= i < n && attachments[i].key == key && receipts[i].Some?
        ensures key in Keyed(attachments[..n], receipts[..n])
        ensures Keyed(attachments[..n], receipts[..n])[key] == receipts[i].value
      {
        assert attachments[..n][i] == attachments[i] && receipts[..n][i] == receipts[i];
      }
      if key in Keyed(attachments[..n], receipts[..n]) {
        var i :| 0 <= i < n && attachments[..n][i].key == key && receipts[..n][i].Some?;
        assert attachments[i].key == key && receipts[i].Some?;
      }
    }
  }

  lemma KeyedOwn(attachments: seq<Attachment>, receipts: seq<Option<Receipt>>)
    requires |attachments| == |receipts| && DistinctKeys(attachments)
    ensures var m := Keyed(attachments, receipts);
            forall i :: 0 <= i < |attachments| ==>
              && (attachments[i].key in m <==> receipts[i].Some?)
              && (receipts[i].Some? ==> m[attachments[i].key] == receipts[i].value)
  {
    forall i | 0 <= i < |attachments|
      ensures attachments[i].key in Keyed(attachments, receipts) <==> receipts[i].Some?
      ensures receipts[i].Some? ==> Keyed(attachments, receipts)[attachments[i].key] == receipts[i].value
    {
      KeyedAt(attachments, receipts, attachments[i].key);
    }
  }

  lemma KeyedAll(attachments: seq<Attachment>, receipts: seq<Option<Receipt>>)
    requires |attachments| == |receipts| && DistinctKeys(attachments)
    requires forall i :: 0 <= i < |receipts| ==> receipts[i].Some?
    ensures Keyed(attachments, receipts).Keys == set a <- attachments :: a.key
  {
    var m := Keyed(attachments, receipts);
    forall key ensures key in m <==> key in (set a <- attachments :: a.key) {
      KeyedAt(attachments, receipts, key);
    }
  }

  /** A batch that ended without a failure left no attachment without a receipt. */
  lemma AllFilled(b: Batch)
    requires Inv(b) && Over(b) && b.failure.None? && b.size > 0
    ensures forall i :: 0 <= i < b.size ==> b.receipts[i].Some?
  {
    assert b.workers[0].Exited?;
    forall i | 0 <= i < b.size ensures b.receipts[i].Some? {
      assert b.workers[b.taken[i]].Exited?;
    }
  }

  /** The batch, for every interleaving of the workers: no attachment is uploaded twice. Without a failure the result maps
      every key to the receipt of its own upload, and no worker ever exits without one; with a Library upload error the
      report holds exactly the uploads that had returned. */
  lemma BatchResult(attachments: seq<Attachment>, steps: seq<Step>, b: Batch)
    requires DistinctKeys(attachments)
    requires Run(NewBatch(|attachments|), steps, b) && Over(b) && attachments != []
    ensures |b.receipts| == |attachments| && |b.workers| == Min(8, |attachments|)
    ensures forall j, k :: 0 <= j < k < |b.uploads| ==> b.uploads[j].0 != b.uploads[k].0
    ensures var result := Outcome(attachments, b.receipts, b.failure);
            match b.failure
            case None =>
              result.Receipts? && result.byKey.Keys == (set a <- attachments :: a.key)
              && forall i :: 0 <= i < |attachments| ==> (i, result.byKey[attachments[i].key]) in b.uploads
            case Some(LibraryUploadError) =>
              result.UploadFailed?
              && forall i, r :: 0 <= i < |attachments| ==>
                   ((i, r) in b.uploads <==> attachments[i].key in result.completed && result.completed[attachments[i].key] == r)
            case Some(OtherError) => result == Raised
  {
    RunKeepsInv(NewBatch(|attachments|), steps, b);
    KeyedOwn(attachments, b.receipts);
    if b.failure.None? {
      AllFilled(b);
      KeyedAll(attachments, b.receipts);
    }
    hide Keyed, Run, TakenOnce;
  }
}

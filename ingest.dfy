/**
 * The ingestion script: it derives a document's topic slug and title from its
 * file name, chunks its text, inserts a document row, deletes that document's
 * chunk rows, embeds the chunks (falling back to no vectors) and inserts one
 * chunk row per chunk. The database is an in-memory store whose calls may fail.
 */
module Ingest {
  import opened Wrappers
  import opened Text
  import Chunker
  import opened Seqs

  // ---------------------------------------------------------------------------
  // Names derived from the file name

  /** `name` ends with ".md", the letters in either case (the `/\.md$/i` test). */
  predicate HasMdSuffixAnyCase(name: string) {
    |name| >= 3 && name[|name| - 3] == '.' && LowerChar(name[|name| - 2]) == 'm' && LowerChar(name[|name| - 1]) == 'd'
  }

  /** `path.basename(filePath).replace(/\.md$/i, "")`, given the base name. */
  function BaseName(fileName: string): (base: string)
    ensures |base| <= |fileName| && fileName == base + fileName[|base|..]
    ensures HasMdSuffixAnyCase(fileName) ==> |fileName| - |base| == 3
    ensures !HasMdSuffixAnyCase(fileName) ==> base == fileName
  {
    if HasMdSuffixAnyCase(fileName) then fileName[..|fileName| - 3] else fileName
  }

  predicate IsSlugChar(c: char) {
    'a' <= c <= 'z' || '0' <= c <= '9' || c == '-'
  }

  /** Every character is one of `[a-z0-9-]`. */
  predicate IsSlug(s: string) {
    forall i :: 0 <= i < |s| ==> IsSlugChar(s[i])
  }

  /** Every character lies outside `[a-z0-9-]`. */
  predicate NoSlugChars(s: string) {
    forall i :: 0 <= i < |s| ==> !IsSlugChar(s[i])
  }

  /**
   * `s.replace(/[^a-z0-9\-]+/g, "-")` read left to right; `inRun` says that the
   * character before `s` was already replaced, so a run continues.
   */
  function CollapseAfter(s: string, inRun: bool): (r: string)
    ensures IsSlug(r)
    ensures |r| <= |s|
  {
    if s == "" then ""
    else if IsSlugChar(s[0]) then [s[0]] + CollapseAfter(s[1..], false)
    else if inRun then CollapseAfter(s[1..], true)
    else "-" + CollapseAfter(s[1..], true)
  }

  /** `s.replace(/[^a-z0-9\-]+/g, "-")`: each maximal run of other characters becomes one '-'. */
  function Collapse(s: string): (r: string)
    ensures IsSlug(r)
    ensures |r| <= |s|
  {
    CollapseAfter(s, false)
  }

  /** The `topic_slug` of a document whose base name is `base`. */
  function TopicSlug(base: string): (slug: string)
    ensures IsSlug(slug)
    ensures |slug| <= |base|
  {
    Collapse(Lower(base))
  }

  lemma {:induction false} CollapseOfSlug(s: string, inRun: bool)
    requires IsSlug(s)
    ensures CollapseAfter(s, inRun) == s
    decreases |s|
  {
    if s != "" {
      CollapseOfSlug(s[1..], false);
      assert s == [s[0]] + s[1..];
    }
  }

  lemma LowerOfSlug(s: string)
    requires IsSlug(s)
    ensures Lower(s) == s
  {
  }

  /** A name that is already a slug (after lower-casing) is kept as it is. */
  lemma TopicSlugOfSlugName(base: string)
    requires IsSlug(Lower(base))
    ensures TopicSlug(base) == Lower(base)
  {
    CollapseOfSlug(Lower(base), false);
  }

  /** Re-slugging a slug leaves it unchanged. */
  lemma TopicSlugIdempotent(base: string)
    ensures TopicSlug(TopicSlug(base)) == TopicSlug(base)
  {
    var slug := TopicSlug(base);
    LowerOfSlug(slug);
    CollapseOfSlug(slug, false);
  }

  /** One maximal run of characters outside `[a-z0-9-]` becomes a single '-'. */
  lemma {:induction false} CollapseRun(a: string, b: string, c: string)
    requires IsSlug(a)
    requires b != "" && NoSlugChars(b)
    requires c == "" || IsSlugChar(c[0])
    ensures Collapse(a + b + c) == a + "-" + Collapse(c)
    decreases |a|
  {
    var s := a + b + c;
    if a == "" {
      assert s == b + c;
      assert s[0] == b[0];
      assert s[1..] == b[1..] + c;
      RunContinues(b[1..], c);
    } else {
      assert s[0] == a[0];
      assert s[1..] == a[1..] + b + c;
      CollapseRun(a[1..], b, c);
      assert a == [a[0]] + a[1..];
    }
  }

  /** Inside a run, further characters outside `[a-z0-9-]` add nothing. */
  lemma {:induction false} RunContinues(b: string, c: string)
    requires NoSlugChars(b)
    requires c == "" || IsSlugChar(c[0])
    ensures CollapseAfter(b + c, true) == Collapse(c)
    decreases |b|
  {
    if b == "" {
      assert b + c == c;
    } else {
      assert (b + c)[0] == b[0];
      assert (b + c)[1..] == b[1..] + c;
      RunContinues(b[1..], c);
    }
  }

  /** The `title` of a document whose base name is `base`: each '-' or '_' becomes a space. */
  function Title(base: string): (title: string)
    ensures |title| == |base|
    ensures forall i :: 0 <= i < |base| ==>
              title[i] == (if base[i] == '-' || base[i] == '_' then ' ' else base[i])
  {
    seq(|base|, i requires 0 <= i < |base| => if base[i] == '-' || base[i] == '_' then ' ' else base[i])
  }

  /** A title has no separator left, so titling it again changes nothing. */
  lemma TitleIdempotent(base: string)
    ensures forall i :: 0 <= i < |Title(base)| ==> Title(base)[i] != '-' && Title(base)[i] != '_'
    ensures Title(Title(base)) == Title(base)
  {
  }

  /** A file name in mixed case with both separators and an upper-case suffix. */
  lemma DocForExample(fileName: string)
    requires fileName == "Place-Value_Basics.MD"
    ensures DocFor("math", fileName) == Doc("math", "place-value-basics", "Place Value Basics")
  {
    var base := BaseName(fileName);
    assert base == "Place-Value_Basics";
    SlugExample(base);
    TitleExample(base);
  }

  lemma SlugExample(base: string)
    requires base == "Place-Value_Basics"
    ensures TopicSlug(base) == "place-value-basics"
  {
    var lower := Lower(base);
    assert forall i :: 0 <= i < 18 ==> lower[i] == "place-value_basics"[i];
    assert lower == "place-value" + "_" + "basics";
    SlugOfOneRun(base, "place-value", "_", "basics");
    assert "place-value" + "-" + "basics" == "place-value-basics";
  }

  lemma TitleExample(base: string)
    requires base == "Place-Value_Basics"
    ensures Title(base) == "Place Value Basics"
  {
    var title := Title(base);
    assert forall i :: 0 <= i < 18 ==> title[i] == "Place Value Basics"[i];
  }

  lemma SlugOfOneRun(base: string, a: string, b: string, c: string)
    requires Lower(base) == a + b + c
    requires IsSlug(a) && b != "" && NoSlugChars(b) && IsSlug(c)
    ensures TopicSlug(base) == a + "-" + c
  {
    CollapseOfSlug(c, false);
    CollapseRun(a, b, c);
  }

  // ---------------------------------------------------------------------------
  // Embeddings and chunk rows

  /** An embedding vector, as the provider returns it. */
  type Vector = seq<real>

  /** What the embedding provider answers to one batched request. */
  datatype EmbedReply = Embedded(vectors: seq<Vector>) | EmbedFailed(message: string)

  /**
   * `embedBatch(chunks)`: with no API key, or when the request throws, one
   * `null` per chunk; otherwise the vectors of the reply, in order.
   */
  function EmbedBatch(chunks: seq<string>, hasKey: bool, reply: EmbedReply): (r: seq<Option<Vector>>)
    ensures !hasKey || reply.EmbedFailed? ==> |r| == |chunks| && forall i :: 0 <= i < |r| ==> r[i] == None
    ensures hasKey && reply.Embedded? ==>
              |r| == |reply.vectors| && forall i :: 0 <= i < |r| ==> r[i] == Some(reply.vectors[i])
  {
    if !hasKey || reply.EmbedFailed? then seq(|chunks|, _ => None)
    else seq(|reply.vectors|, i requires 0 <= i < |reply.vectors| => Some(reply.vectors[i]))
  }

  /** A `kb_chunks` row. */
  datatype ChunkRow = ChunkRow(docId: nat, chunkIndex: nat, content: string, embedding: Option<Vector>)

  /** `embeddings[i] ?? null`: a missing entry is `null`. */
  function EmbeddingAt(embeddings: seq<Option<Vector>>, i: nat): Option<Vector> {
    if i < |embeddings| then embeddings[i] else None
  }

  /** The rows `insertChunks(docId, chunks, embeddings)` inserts. */
  function ChunkRows(docId: nat, chunks: seq<string>, embeddings: seq<Option<Vector>>): seq<ChunkRow> {
    seq(|chunks|, i requires 0 <= i < |chunks| => ChunkRow(docId, i, chunks[i], EmbeddingAt(embeddings, i)))
  }

  /** The contents of a sequence of rows, in order. */
  function Contents(rows: seq<ChunkRow>): seq<string> {
    seq(|rows|, i requires 0 <= i < |rows| => rows[i].content)
  }

  /**
   * One row per chunk, indexed 0, 1, ... in chunk order, all for the same
   * document: reading the contents back gives the chunks.
   */
  lemma ChunkRowsRoundTrip(docId: nat, chunks: seq<string>, embeddings: seq<Option<Vector>>)
    ensures var rows := ChunkRows(docId, chunks, embeddings);
      && Contents(rows) == chunks
      && forall i :: 0 <= i < |rows| ==> rows[i].chunkIndex == i && rows[i].docId == docId
  {
  }

  /**
   * Whatever the provider does, there is exactly one row per chunk; with no key
   * or after a failure every row has a `null` embedding.
   */
  lemma RowsAfterEmbedding(docId: nat, chunks: seq<string>, hasKey: bool, reply: EmbedReply)
    ensures var rows := ChunkRows(docId, chunks, EmbedBatch(chunks, hasKey, reply));
      && |rows| == |chunks|
      && (!hasKey || reply.EmbedFailed? ==> forall i :: 0 <= i < |rows| ==> rows[i].embedding == None)
      && (hasKey && reply.Embedded? ==> forall i :: 0 <= i < |rows| ==>
            rows[i].embedding == if i < |reply.vectors| then Some(reply.vectors[i]) else None)
  {
  }

  // ---------------------------------------------------------------------------
  // The store

  /** A `kb_docs` row (without its id). */
  datatype Doc = Doc(subject: string, topicSlug: string, title: string)

  /** The store's contents: documents by id, chunk rows in insertion order, the next id to assign. */
  datatype StoreView = StoreView(docs: map<nat, Doc>, rows: seq<ChunkRow>, nextId: nat)

  /** Ids are assigned below `nextId`, and every chunk row belongs to a stored document. */
  ghost predicate StoreInvariant(v: StoreView) {
    && (forall id <- v.docs :: id < v.nextId)
    && (forall r <- v.rows :: r.docId in v.docs)
  }

  /** The store calls the ingestion makes, each of which may fail. */
  datatype StoreOp = CreateDoc | DeleteChunks | InsertChunks

  /** Which store call of one file's ingestion returns an error, if any, and its message. */
  datatype Fault = NoFault | FailAt(op: StoreOp, message: string)

  predicate Fails(fault: Fault, op: StoreOp) {
    fault.FailAt? && fault.op == op
  }

  /** The outside world as one file's ingestion sees it. */
  datatype FileEnv = FileEnv(embed: EmbedReply, fault: Fault)

  function AddDoc(v: StoreView, d: Doc): StoreView {
    StoreView(v.docs[v.nextId := d], v.rows, v.nextId + 1)
  }

  /** The rows of document `id`, in order. */
  function RowsOf(rows: seq<ChunkRow>, id: nat): (r: seq<ChunkRow>)
    ensures forall x <- r :: x.docId == id && x in rows
  {
    if rows == [] then []
    else RowsOf(rows[..|rows| - 1], id) + (if rows[|rows| - 1].docId == id then [rows[|rows| - 1]] else [])
  }

  /** The rows not of document `id`, in order. */
  function WithoutDoc(rows: seq<ChunkRow>, id: nat): (r: seq<ChunkRow>)
    ensures forall x <- r :: x.docId != id && x in rows
  {
    if rows == [] then []
    else WithoutDoc(rows[..|rows| - 1], id) + (if rows[|rows| - 1].docId != id then [rows[|rows| - 1]] else [])
  }

  function DeleteRowsOf(v: StoreView, id: nat): StoreView {
    v.(rows := WithoutDoc(v.rows, id))
  }

  function AppendRows(v: StoreView, rows: seq<ChunkRow>): StoreView {
    v.(rows := v.rows + rows)
  }

  /** The in-memory database the ingestion writes to. */
  class Store {
    var docs: map<nat, Doc>
    var rows: seq<ChunkRow>
    var nextId: nat

    function View(): StoreView
      reads this
    {
      StoreView(docs, rows, nextId)
    }

    constructor ()
      ensures View() == StoreView(map[], [], 0)
    {
      docs, rows, nextId := map[], [], 0;
    }

    /** `upsertDoc`: always inserts a new `kb_docs` row and returns its fresh id. */
    method CreateDocRow(d: Doc, fault: Fault) returns (r: Result<nat, string>)
      modifies this
      ensures Fails(fault, CreateDoc) ==> r == Failure(fault.message) && View() == old(View())
      ensures !Fails(fault, CreateDoc) ==> r == Success(old(nextId)) && View() == AddDoc(old(View()), d)
    {
      if Fails(fault, CreateDoc) {
        return Failure(fault.message);
      }
      r := Success(nextId);
      docs := docs[nextId := d];
      nextId := nextId + 1;
    }

    /** `deleteOldChunks`: removes every chunk row of document `id`. */
    method DeleteChunksOf(id: nat, fault: Fault) returns (r: Result<(), string>)
      modifies this
      ensures Fails(fault, DeleteChunks) ==> r == Failure(fault.message) && View() == old(View())
      ensures !Fails(fault, DeleteChunks) ==> r == Success(()) && View() == DeleteRowsOf(old(View()), id)
    {
      if Fails(fault, DeleteChunks) {
        return Failure(fault.message);
      }
      rows := WithoutDoc(rows, id);
      r := Success(());
    }

    /** The insert of `insertChunks`: all rows or, on error, none. */
    method InsertChunkRows(newRows: seq<ChunkRow>, fault: Fault) returns (r: Result<(), string>)
      modifies this
      ensures Fails(fault, InsertChunks) ==> r == Failure(fault.message) && View() == old(View())
      ensures !Fails(fault, InsertChunks) ==> r == Success(()) && View() == AppendRows(old(View()), newRows)
    {
      if Fails(fault, InsertChunks) {
        return Failure(fault.message);
      }
      rows := rows + newRows;
      r := Success(());
    }
  }

  // ---------------------------------------------------------------------------
  // One file

  /** The document row `ingestFile` creates for `fileName` under `subject`. */
  function DocFor(subject: string, fileName: string): Doc {
    var base := BaseName(fileName);
    Doc(subject, TopicSlug(base), Title(base))
  }

  /**
   * `ingestFile(subject, file)` on a store whose contents are `v`: the new
   * contents and the number of chunks inserted, or the error it throws.
   */
  function IngestSpec(v: StoreView, subject: string, fileName: string, md: string, hasKey: bool, env: FileEnv)
    : (StoreView, Result<nat, string>)
  {
    IngestChunks(v, DocFor(subject, fileName), Chunker.Chunks(md, Chunker.MaxChunkLength), hasKey, env)
  }

  /** The store writes of `ingestFile` for a document `doc` whose text has been cut into `chunks`. */
  function IngestChunks(v: StoreView, doc: Doc, chunks: seq<string>, hasKey: bool, env: FileEnv)
    : (StoreView, Result<nat, string>)
  {
    if chunks == [] then (v, Success(0))
    else if Fails(env.fault, CreateDoc) then (v, Failure(env.fault.message))
    else
      var id := v.nextId;
      var v1 := AddDoc(v, doc);
      if Fails(env.fault, DeleteChunks) then (v1, Failure(env.fault.message))
      else
        var v2 := DeleteRowsOf(v1, id);
        if Fails(env.fault, InsertChunks) then (v2, Failure(env.fault.message))
        else (AppendRows(v2, ChunkRows(id, chunks, EmbedBatch(chunks, hasKey, env.embed))), Success(|chunks|))
  }

  /** `ingestFile(subject, file)`: the file's text is `md`. */
  method IngestFile(store: Store, subject: string, fileName: string, md: string, hasKey: bool, env: FileEnv)
    returns (r: Result<nat, string>)
    modifies store
    ensures (store.View(), r) == IngestSpec(old(store.View()), subject, fileName, md, hasKey, env)
  {
    var base := BaseName(fileName);
    var doc := Doc(subject, TopicSlug(base), Title(base));
    var chunks := Chunker.ChunkText(md, Chunker.MaxChunkLength);
    if |chunks| == 0 {
      return Success(0);
    }
    var created := store.CreateDocRow(doc, env.fault);
    if created.Failure? {
      return Failure(created.error);
    }
    var id := created.value;
    var deleted := store.DeleteChunksOf(id, env.fault);
    if deleted.Failure? {
      return Failure(deleted.error);
    }
    var embeddings := EmbedBatch(chunks, hasKey, env.embed);
    var inserted := store.InsertChunkRows(ChunkRows(id, chunks, embeddings), env.fault);
    if inserted.Failure? {
      return Failure(inserted.error);
    }
    r := Success(|chunks|);
  }

  // ---- Lemmas about row filters

  lemma {:induction false} RowsOfAppend(a: seq<ChunkRow>, b: seq<ChunkRow>, id: nat)
    ensures RowsOf(a + b, id) == RowsOf(a, id) + RowsOf(b, id)
    decreases |b|
  {
    if b == [] {
      assert a + b == a;
    } else {
      var init, x := b[..|b| - 1], b[|b| - 1];
      SnocSplit(a, b);
      RowsOfSnoc(a + init, x, id);
      RowsOfSnoc(init, x, id);
      RowsOfAppend(a, init, id);
      AppendAssoc(RowsOf(a, id), RowsOf(init, id), if x.docId == id then [x] else []);
    }
  }

  lemma SnocSplit<T>(a: seq<T>, b: seq<T>)
    requires b != []
    ensures a + b == (a + b[..|b| - 1]) + [b[|b| - 1]] && b == b[..|b| - 1] + [b[|b| - 1]]
  {
  }

  lemma RowsOfSnoc(rows: seq<ChunkRow>, x: ChunkRow, id: nat)
    ensures RowsOf(rows + [x], id) == RowsOf(rows, id) + (if x.docId == id then [x] else [])
  {
    assert (rows + [x])[..|rows|] == rows;
  }

  lemma WithoutDocSnoc(rows: seq<ChunkRow>, x: ChunkRow, id: nat)
    ensures WithoutDoc(rows + [x], id) == WithoutDoc(rows, id) + (if x.docId != id then [x] else [])
  {
    assert (rows + [x])[..|rows|] == rows;
  }

  lemma {:induction false} WithoutDocAppend(a: seq<ChunkRow>, b: seq<ChunkRow>, id: nat)
    ensures WithoutDoc(a + b, id) == WithoutDoc(a, id) + WithoutDoc(b, id)
    decreases |b|
  {
    if b == [] {
      assert a + b == a;
    } else {
      var init, x := b[..|b| - 1], b[|b| - 1];
      SnocSplit(a, b);
      WithoutDocSnoc(a + init, x, id);
      WithoutDocSnoc(init, x, id);
      WithoutDocAppend(a, init, id);
      AppendAssoc(WithoutDoc(a, id), WithoutDoc(init, id), if x.docId != id then [x] else []);
    }
  }

  lemma {:induction false} RowsOfWithout(rows: seq<ChunkRow>, id: nat, other: nat)
    ensures RowsOf(WithoutDoc(rows, id), other) == if other == id then [] else RowsOf(rows, other)
    decreases |rows|
  {
    if rows != [] {
      var init := rows[..|rows| - 1];
      var last := rows[|rows| - 1];
      RowsOfWithout(init, id, other);
      var tail := if last.docId != id then [last] else [];
      RowsOfAppend(WithoutDoc(init, id), tail, other);
      assert tail == [] ==> RowsOf(tail, other) == [];
      if tail != [] {
        assert [last][..0] == [];
      }
    }
  }

  lemma {:induction false} WithoutAbsentDoc(rows: seq<ChunkRow>, id: nat)
    requires forall r <- rows :: r.docId != id
    ensures WithoutDoc(rows, id) == rows
    decreases |rows|
  {
    if rows != [] {
      var init := rows[..|rows| - 1];
      WithoutAbsentDoc(init, id);
      SnocSplit([], rows);
      WithoutDocSnoc(init, rows[|rows| - 1], id);
    }
  }

  lemma {:induction false} RowsOfOwnRows(rows: seq<ChunkRow>, id: nat, other: nat)
    requires forall r <- rows :: r.docId == id
    ensures RowsOf(rows, other) == if other == id then rows else []
    decreases |rows|
  {
    if rows != [] {
      RowsOfOwnRows(rows[..|rows| - 1], id, other);
      assert rows == rows[..|rows| - 1] + [rows[|rows| - 1]];
    }
  }

  // ---- Lemmas about one file

  /** A text with no chunk is not written to the store and counts 0. */
  lemma IngestEmptyText(v: StoreView, doc: Doc, hasKey: bool, env: FileEnv)
    ensures IngestChunks(v, doc, [], hasKey, env) == (v, Success(0))
  {
  }

  /** The ingestion of a file fails exactly when it has chunks and one of its store calls fails. */
  lemma IngestFailsIff(v: StoreView, doc: Doc, chunks: seq<string>, hasKey: bool, env: FileEnv)
    ensures IngestChunks(v, doc, chunks, hasKey, env).1.Failure? <==> chunks != [] && env.fault.FailAt?
    ensures IngestChunks(v, doc, chunks, hasKey, env).1.Failure? ==>
              IngestChunks(v, doc, chunks, hasKey, env).1.error == env.fault.message
    ensures IngestChunks(v, doc, chunks, hasKey, env).1.Success? ==>
              IngestChunks(v, doc, chunks, hasKey, env).1.value == |chunks|
  {
  }

  /**
   * A successful ingestion adds one new document (a fresh id, whatever is
   * already stored) whose rows are exactly the chunk rows, in order; every other
   * document keeps its rows; the count is the number of chunks.
   */
  lemma IngestSuccess(v: StoreView, doc: Doc, chunks: seq<string>, hasKey: bool, env: FileEnv)
    requires StoreInvariant(v)
    requires env.fault == NoFault
    requires chunks != []
    ensures var (v', r) := IngestChunks(v, doc, chunks, hasKey, env);
      var newRows := ChunkRows(v.nextId, chunks, EmbedBatch(chunks, hasKey, env.embed));
      && r == Success(|chunks|)
      && v.nextId !in v.docs
      && v'.docs == v.docs[v.nextId := doc]
      && v'.rows == v.rows + newRows
      && RowsOf(v'.rows, v.nextId) == newRows
      && (forall id :: id != v.nextId ==> RowsOf(v'.rows, id) == RowsOf(v.rows, id))
  {
    var id := v.nextId;
    var newRows := ChunkRows(id, chunks, EmbedBatch(chunks, hasKey, env.embed));
    WithoutAbsentDoc(v.rows, id);
    forall other: nat
      ensures RowsOf(v.rows + newRows, other) == if other == id then newRows else RowsOf(v.rows, other)
    {
      RowsOfAppend(v.rows, newRows, other);
      RowsOfOwnRows(newRows, id, other);
      if other == id {
        RowsOfAbsentDoc(v.rows, id);
      }
    }
  }

  lemma RowsOfAbsentDoc(rows: seq<ChunkRow>, id: nat)
    requires forall r <- rows :: r.docId != id
    ensures RowsOf(rows, id) == []
  {
  }

  /** Ingestion keeps the store's invariant, whether it succeeds or fails. */
  lemma IngestKeepsInvariant(v: StoreView, doc: Doc, chunks: seq<string>, hasKey: bool, env: FileEnv)
    requires StoreInvariant(v)
    ensures StoreInvariant(IngestChunks(v, doc, chunks, hasKey, env).0)
  {
    if chunks != [] && !Fails(env.fault, CreateDoc) {
      var v1 := AddDoc(v, doc);
      assert StoreInvariant(v1);
      var v2 := DeleteRowsOf(v1, v.nextId);
      assert StoreInvariant(v2);
      var newRows := ChunkRows(v.nextId, chunks, EmbedBatch(chunks, hasKey, env.embed));
      assert forall r <- newRows :: r.docId == v.nextId;
      assert StoreInvariant(AppendRows(v2, newRows));
    }
  }

  /**
   * A failed ingestion leaves every chunk row in place: the delete targets the
   * fresh document, which has no rows yet. The document row it created, if
   * any, stays.
   */
  lemma IngestFailureKeepsRows(v: StoreView, doc: Doc, chunks: seq<string>, hasKey: bool, env: FileEnv)
    requires StoreInvariant(v)
    requires IngestChunks(v, doc, chunks, hasKey, env).1.Failure?
    ensures var v' := IngestChunks(v, doc, chunks, hasKey, env).0;
      && v'.rows == v.rows
      && (Fails(env.fault, CreateDoc) ==> v' == v)
      && (!Fails(env.fault, CreateDoc) ==> v'.docs == v.docs[v.nextId := doc])
  {
    WithoutAbsentDoc(v.rows, v.nextId);
  }

  /**
   * Re-ingesting an unchanged file creates a second document with the same
   * subject, slug and title, and the first document's chunk rows stay: the
   * "upsert" is an insert, so the delete never reaches the earlier rows.
   */
  lemma ReingestDuplicatesDocument(v: StoreView, subject: string, fileName: string, md: string,
                                   hasKey: bool, env: FileEnv)
    requires StoreInvariant(v)
    requires env.fault == NoFault
    requires Chunker.Chunks(md, Chunker.MaxChunkLength) != []
    ensures var v1 := IngestSpec(v, subject, fileName, md, hasKey, env).0;
      var v2 := IngestSpec(v1, subject, fileName, md, hasKey, env).0;
      && v.nextId in v2.docs && v1.nextId in v2.docs && v.nextId != v1.nextId
      && v2.docs[v.nextId] == v2.docs[v1.nextId] == DocFor(subject, fileName)
      && RowsOf(v2.rows, v.nextId) == RowsOf(v1.rows, v.nextId) != []
  {
    var chunks := Chunker.Chunks(md, Chunker.MaxChunkLength);
    var doc := DocFor(subject, fileName);
    IngestSuccess(v, doc, chunks, hasKey, env);
    IngestKeepsInvariant(v, doc, chunks, hasKey, env);
    var v1 := IngestChunks(v, doc, chunks, hasKey, env).0;
    IngestSuccess(v1, doc, chunks, hasKey, env);
  }

  // ---------------------------------------------------------------------------
  // The whole knowledge base

  /** A file of a subject directory. */
  datatype KbFile = KbFile(name: string, text: string)

  /** An entry of the `kb/` folder: a subject directory with its files, or something else. */
  datatype KbEntry = KbEntry(name: string, isDir: bool, files: seq<KbFile>)

  /**
   * How a run of the script ends: `MissingEnv` when the database URL or the
   * service key is not set, `Aborted` with an error thrown by some file's
   * ingestion.
   */
  datatype RunOutcome = MissingEnv | NoKbFolder | NoSubjects | Done(total: nat) | Aborted(error: string)

  /** The process exit status of each outcome. */
  function ExitCode(o: RunOutcome): int {
    if o.MissingEnv? || o.Aborted? then 1 else 0
  }

  /** `f.endsWith(".md")` (case-sensitive, unlike the suffix `BaseName` strips). */
  predicate EndsWithMd(name: string) {
    |name| >= 3 && name[|name| - 3..] == ".md"
  }

  /** The subject directories of the `kb/` listing, in order. */
  function SubjectDirs(entries: seq<KbEntry>): (r: seq<KbEntry>)
    ensures forall e <- r :: e.isDir && e in entries
    ensures forall e <- entries :: e.isDir ==> e in r
  {
    if entries == [] then []
    else
      assert forall e <- entries :: e == entries[0] || e in entries[1..];
      (if entries[0].isDir then [entries[0]] else []) + SubjectDirs(entries[1..])
  }

  /** Each entry keeps its place: the directories of a listing are those of its parts, in order. */
  lemma {:induction false} SubjectDirsInOrder(before: seq<KbEntry>, e: KbEntry, after: seq<KbEntry>)
    ensures SubjectDirs(before + ([e] + after)) ==
              SubjectDirs(before) + ((if e.isDir then [e] else []) + SubjectDirs(after))
  {
    SubjectDirsAppend(before, [e] + after);
    SubjectDirsCons(e, after);
  }

  lemma SubjectDirsCons(e: KbEntry, after: seq<KbEntry>)
    ensures SubjectDirs([e] + after) == (if e.isDir then [e] else []) + SubjectDirs(after)
  {
    assert ([e] + after)[1..] == after;
  }

  lemma {:induction false} SubjectDirsAppend(a: seq<KbEntry>, b: seq<KbEntry>)
    ensures SubjectDirs(a + b) == SubjectDirs(a) + SubjectDirs(b)
  {
    if a == [] {
      assert a + b == b;
    } else {
      assert (a + b)[1..] == a[1..] + b;
      SubjectDirsAppend(a[1..], b);
    }
  }

  /** The `.md` files of a directory listing, in order. */
  function MdFiles(files: seq<KbFile>): (r: seq<KbFile>)
    ensures forall f <- r :: EndsWithMd(f.name) && f in files
    ensures forall f <- files :: EndsWithMd(f.name) ==> f in r
  {
    if files == [] then []
    else
      assert forall f <- files :: f == files[0] || f in files[1..];
      (if EndsWithMd(files[0].name) then [files[0]] else []) + MdFiles(files[1..])
  }

  /** Each file keeps its place: the `.md` files of a listing are those of its parts, in order. */
  lemma {:induction false} MdFilesInOrder(before: seq<KbFile>, f: KbFile, after: seq<KbFile>)
    ensures MdFiles(before + ([f] + after)) ==
              MdFiles(before) + ((if EndsWithMd(f.name) then [f] else []) + MdFiles(after))
  {
    MdFilesAppend(before, [f] + after);
    MdFilesCons(f, after);
  }

  lemma MdFilesCons(f: KbFile, after: seq<KbFile>)
    ensures MdFiles([f] + after) == (if EndsWithMd(f.name) then [f] else []) + MdFiles(after)
  {
    assert ([f] + after)[1..] == after;
  }

  lemma {:induction false} MdFilesAppend(a: seq<KbFile>, b: seq<KbFile>)
    ensures MdFiles(a + b) == MdFiles(a) + MdFiles(b)
  {
    if a == [] {
      assert a + b == b;
    } else {
      assert (a + b)[1..] == a[1..] + b;
      MdFilesAppend(a[1..], b);
    }
  }

  /** One file to ingest, with its subject and the chunks of its text. */
  datatype Job = Job(subject: string, file: KbFile, chunks: seq<string>)

  /** The job of ingesting `file` under `subject`. */
  function JobFor(subject: string, file: KbFile): Job {
    Job(subject, file, Chunker.Chunks(file.text, Chunker.MaxChunkLength))
  }

  /** The jobs for `files` of one subject, in order. */
  function JobsOf(subject: string, files: seq<KbFile>): (r: seq<Job>)
    ensures |r| == |files|
  {
    if files == [] then [] else [JobFor(subject, files[0])] + JobsOf(subject, files[1..])
  }

  /** The files the nested loops of `main` visit, in order. */
  function Jobs(subjects: seq<KbEntry>): seq<Job> {
    if subjects == [] then []
    else SubjectJobs(subjects[0]) + Jobs(subjects[1..])
  }

  /** What ingesting one file does: the new store contents, and the count or the error thrown. */
  type Step = (StoreView, Job) -> (StoreView, Result<nat, string>)

  /** `ingestFile` as a step of the run, with the key and the outside world of each file fixed. */
  function IngestStep(hasKey: bool, envOf: (string, string) -> FileEnv): Step {
    (v: StoreView, job: Job) =>
      IngestChunks(v, DocFor(job.subject, job.file.name), job.chunks, hasKey, envOf(job.subject, job.file.name))
  }

  /** The loop of `main` over `jobs`: the running total, or the first error thrown, which ends the run. */
  function RunJobs(v: StoreView, jobs: seq<Job>, step: Step): (StoreView, Result<nat, string>) {
    if jobs == [] then (v, Success(0))
    else
      var before := RunJobs(v, jobs[..|jobs| - 1], step);
      if before.1.Failure? then before
      else
        var after := step(before.0, jobs[|jobs| - 1]);
        if after.1.Failure? then after else (after.0, Success(before.1.value + after.1.value))
  }

  /**
   * The script: `hasDbEnv` says whether the database URL and service key are
   * set, `kb` is the listing of `kb/`, absent when the folder does not exist.
   */
  function RunSpec(v: StoreView, hasDbEnv: bool, kb: Option<seq<KbEntry>>, hasKey: bool,
                   envOf: (string, string) -> FileEnv)
    : (StoreView, RunOutcome)
  {
    if !hasDbEnv then (v, MissingEnv)
    else match kb
    case None => (v, NoKbFolder)
    case Some(entries) =>
      var subjects := SubjectDirs(entries);
      if subjects == [] then (v, NoSubjects)
      else
        var run := RunJobs(v, Jobs(subjects), IngestStep(hasKey, envOf));
        (run.0, if run.1.Success? then Done(run.1.value) else Aborted(run.1.error))
  }

  /** Once a run has failed, later jobs change nothing. */
  lemma {:induction false} RunJobsAbortAbsorbs(v: StoreView, done: seq<Job>, rest: seq<Job>, step: Step)
    requires RunJobs(v, done, step).1.Failure?
    ensures RunJobs(v, done + rest, step) == RunJobs(v, done, step)
    decreases |rest|
  {
    if rest == [] {
      assert done + rest == done;
    } else {
      var all := done + rest;
      assert all[..|all| - 1] == done + rest[..|rest| - 1];
      RunJobsAbortAbsorbs(v, done, rest[..|rest| - 1], step);
    }
  }

  /** The script over the store. */
  method IngestAll(store: Store, hasDbEnv: bool, kb: Option<seq<KbEntry>>, hasKey: bool,
                   envOf: (string, string) -> FileEnv)
    returns (outcome: RunOutcome)
    modifies store
    ensures (store.View(), outcome) == RunSpec(old(store.View()), hasDbEnv, kb, hasKey, envOf)
  {
    if !hasDbEnv {
      return MissingEnv;
    }
    if kb.None? {
      return NoKbFolder;
    }
    var subjects := SubjectDirs(kb.value);
    if |subjects| == 0 {
      return NoSubjects;
    }
    ghost var v0 := store.View();
    ghost var step := IngestStep(hasKey, envOf);
    ghost var all := Jobs(subjects);
    ghost var done: seq<Job> := [];
    var total: nat := 0;
    assert subjects[0..] == subjects;
    for i := 0 to |subjects|
      invariant done + Jobs(subjects[i..]) == all
      invariant RunJobs(v0, done, step) == (store.View(), Success(total))
    {
      ghost var later := Jobs(subjects[i + 1..]);
      JobsAt(subjects, i);
      Regroup(done, SubjectJobs(subjects[i]), later);
      var res := IngestSubject(store, subjects[i], hasKey, envOf, v0, done, total);
      if res.Failure? {
        RunJobsAbortAbsorbs(v0, done + SubjectJobs(subjects[i]), later, step);
        return Aborted(res.error);
      }
      done := done + SubjectJobs(subjects[i]);
      total := res.value;
    }
    assert subjects[|subjects|..] == [];
    AppendNil(done, all);
    outcome := Done(total);
  }

  /** The jobs of one subject directory: its `.md` files, in order. */
  function SubjectJobs(dir: KbEntry): seq<Job> {
    JobsOf(dir.name, MdFiles(dir.files))
  }

  /** The inner loop of `main`, over the `.md` files of one subject directory. */
  method IngestSubject(store: Store, dir: KbEntry, hasKey: bool, envOf: (string, string) -> FileEnv,
                       ghost v0: StoreView, ghost done: seq<Job>, total: nat)
    returns (res: Result<nat, string>)
    requires RunJobs(v0, done, IngestStep(hasKey, envOf)) == (store.View(), Success(total))
    modifies store
    ensures RunJobs(v0, done + SubjectJobs(dir), IngestStep(hasKey, envOf)) == (store.View(), res)
  {
    ghost var step := IngestStep(hasKey, envOf);
    ghost var target := done + SubjectJobs(dir);
    var files := MdFiles(dir.files);
    ghost var cur := done;
    var t := total;
    assert files[0..] == files;
    for j := 0 to |files|
      invariant cur + JobsOf(dir.name, files[j..]) == target
      invariant RunJobs(v0, cur, step) == (store.View(), Success(t))
    {
      ghost var job := JobFor(dir.name, files[j]);
      ghost var rest := JobsOf(dir.name, files[j + 1..]);
      JobsOfAt(dir.name, files, j);
      Advance(cur, JobsOf(dir.name, files[j..]), job, rest, target);
      var r := IngestNext(store, dir.name, files[j], hasKey, envOf, v0, cur, t);
      if r.Failure? {
        RunJobsAbortAbsorbs(v0, cur + [job], rest, step);
        return r;
      }
      cur := cur + [job];
      t := r.value;
    }
    assert files[|files|..] == [];
    AppendNil(cur, target);
    res := Success(t);
  }

  /** One iteration of the inner loop of `main`: ingest `f`, then add its count to the running total. */
  method IngestNext(store: Store, subject: string, f: KbFile, hasKey: bool, envOf: (string, string) -> FileEnv,
                    ghost v0: StoreView, ghost done: seq<Job>, total: nat)
    returns (res: Result<nat, string>)
    requires RunJobs(v0, done, IngestStep(hasKey, envOf)) == (store.View(), Success(total))
    modifies store
    ensures RunJobs(v0, done + [JobFor(subject, f)], IngestStep(hasKey, envOf)) == (store.View(), res)
  {
    ghost var before := store.View();
    var r := IngestFile(store, subject, f.name, f.text, hasKey, envOf(subject, f.name));
    StepIsIngestFile(before, subject, f, hasKey, envOf);
    RunJobsExtend(v0, done, JobFor(subject, f), IngestStep(hasKey, envOf), before, total, store.View(), r);
    res := if r.Failure? then r else Success(total + r.value);
  }

  lemma JobsAt(subjects: seq<KbEntry>, i: nat)
    requires i < |subjects|
    ensures Jobs(subjects[i..]) == SubjectJobs(subjects[i]) + Jobs(subjects[i + 1..])
  {
    assert subjects[i..][1..] == subjects[i + 1..];
  }

  lemma JobsOfAt(subject: string, files: seq<KbFile>, j: nat)
    requires j < |files|
    ensures JobsOf(subject, files[j..]) != []
    ensures JobsOf(subject, files[j..])[0] == JobFor(subject, files[j])
    ensures JobsOf(subject, files[j..])[1..] == JobsOf(subject, files[j + 1..])
  {
    assert files[j..][1..] == files[j + 1..];
  }

  /** The run over `done` followed by one more job, when the run over `done` succeeded. */
  lemma RunJobsExtend(v: StoreView, done: seq<Job>, job: Job, step: Step,
                      mid: StoreView, total: nat, after: StoreView, r: Result<nat, string>)
    requires RunJobs(v, done, step) == (mid, Success(total))
    requires step(mid, job) == (after, r)
    ensures RunJobs(v, done + [job], step) == if r.Failure? then (after, r) else (after, Success(total + r.value))
  {
    assert (done + [job])[..|done|] == done;
  }

  /** A step of the run is `ingestFile` on the job's file. */
  lemma StepIsIngestFile(v: StoreView, subject: string, f: KbFile, hasKey: bool, envOf: (string, string) -> FileEnv)
    ensures IngestStep(hasKey, envOf)(v, JobFor(subject, f)) == IngestSpec(v, subject, f.name, f.text, hasKey, envOf(subject, f.name))
  {
  }

  // ---- Lemmas about the run

  /** The number of chunks of each job's text, added up. */
  function TotalChunks(jobs: seq<Job>): nat {
    if jobs == [] then 0
    else TotalChunks(jobs[..|jobs| - 1]) + |jobs[|jobs| - 1].chunks|
  }

  /** A job whose ingestion throws: it has chunks and one of its store calls fails. */
  predicate JobFails(job: Job, envOf: (string, string) -> FileEnv) {
    job.chunks != [] && envOf(job.subject, job.file.name).fault.FailAt?
  }

  /** `step` fails exactly on the failing jobs, with their message, and otherwise counts their chunks. */
  ghost predicate ReportsLikeIngest(step: Step, envOf: (string, string) -> FileEnv) {
    forall w: StoreView, job: Job ::
      && (step(w, job).1.Failure? <==> JobFails(job, envOf))
      && (step(w, job).1.Failure? ==> step(w, job).1.error == envOf(job.subject, job.file.name).fault.message)
      && (step(w, job).1.Success? ==> step(w, job).1.value == |job.chunks|)
  }

  /** `IngestFailsIff`, for every job of a run. */
  lemma IngestStepReports(hasKey: bool, envOf: (string, string) -> FileEnv)
    ensures ReportsLikeIngest(IngestStep(hasKey, envOf), envOf)
  {
    forall w: StoreView, job: Job {
      IngestFailsIff(w, DocFor(job.subject, job.file.name), job.chunks, hasKey, envOf(job.subject, job.file.name));
    }
  }

  /**
   * A run succeeds exactly when no file's ingestion fails, and its total is
   * then the number of chunks of all the files.
   */
  lemma {:induction false} RunJobsSucceedsIff(v: StoreView, jobs: seq<Job>, step: Step,
                                              envOf: (string, string) -> FileEnv)
    requires ReportsLikeIngest(step, envOf)
    ensures RunJobs(v, jobs, step).1.Success? <==> forall i :: 0 <= i < |jobs| ==> !JobFails(jobs[i], envOf)
    ensures RunJobs(v, jobs, step).1.Success? ==> RunJobs(v, jobs, step).1.value == TotalChunks(jobs)
    decreases |jobs|
  {
    if jobs != [] {
      var init := jobs[..|jobs| - 1];
      RunJobsSucceedsIff(v, init, step, envOf);
      assert forall i :: 0 <= i < |init| ==> init[i] == jobs[i];
    }
  }

  /**
   * When job `i` is the first whose ingestion fails, the run reports that
   * job's error and ends there: the jobs after it are never run.
   */
  lemma RunJobsFirstFailure(v: StoreView, jobs: seq<Job>, i: nat, step: Step, envOf: (string, string) -> FileEnv)
    requires ReportsLikeIngest(step, envOf)
    requires i < |jobs| && JobFails(jobs[i], envOf)
    requires forall j :: 0 <= j < i ==> !JobFails(jobs[j], envOf)
    ensures RunJobs(v, jobs, step).1 == Failure(envOf(jobs[i].subject, jobs[i].file.name).fault.message)
    ensures RunJobs(v, jobs, step) == RunJobs(v, jobs[..i + 1], step)
  {
    var done := jobs[..i + 1];
    assert done[..i] == jobs[..i];
    RunJobsSucceedsIff(v, jobs[..i], step, envOf);
    RunJobsAbortAbsorbs(v, done, jobs[i + 1..], step);
    assert done + jobs[i + 1..] == jobs;
  }

  /**
   * The loop of `main()` over its files ends with the number of chunks of all
   * of them when no file's ingestion fails, and otherwise with the error of the
   * first file that fails.
   */
  lemma RunJobsOutcome(v: StoreView, jobs: seq<Job>, hasKey: bool, envOf: (string, string) -> FileEnv)
    ensures var r := RunJobs(v, jobs, IngestStep(hasKey, envOf)).1;
      && (r.Success? <==> forall i :: 0 <= i < |jobs| ==> !JobFails(jobs[i], envOf))
      && (r.Success? ==> r.value == TotalChunks(jobs))
      && (r.Failure? ==>
            exists i ::
              && 0 <= i < |jobs|
              && JobFails(jobs[i], envOf)
              && r.error == envOf(jobs[i].subject, jobs[i].file.name).fault.message
              && (forall j :: 0 <= j < i ==> !JobFails(jobs[j], envOf)))
  {
    var step := IngestStep(hasKey, envOf);
    IngestStepReports(hasKey, envOf);
    RunJobsSucceedsIff(v, jobs, step, envOf);
    if exists i :: 0 <= i < |jobs| && JobFails(jobs[i], envOf) {
      var i := FirstFailing(jobs, envOf);
      RunJobsFirstFailure(v, jobs, i, step, envOf);
    }
  }

  /** The index of the first failing job. */
  lemma FirstFailing(jobs: seq<Job>, envOf: (string, string) -> FileEnv) returns (i: nat)
    requires exists k :: 0 <= k < |jobs| && JobFails(jobs[k], envOf)
    ensures i < |jobs| && JobFails(jobs[i], envOf)
    ensures forall j :: 0 <= j < i ==> !JobFails(jobs[j], envOf)
  {
    i := 0;
    while !JobFails(jobs[i], envOf)
      invariant i < |jobs|
      invariant forall j :: 0 <= j < i ==> !JobFails(jobs[j], envOf)
      invariant exists k :: i <= k < |jobs| && JobFails(jobs[k], envOf)
      decreases |jobs| - i
    {
      i := i + 1;
    }
  }

  /**
   * Without the database settings, without a `kb/` folder, or with no subject
   * directory in it, the script writes nothing, and only the first of these
   * exits with a failure status.
   */
  lemma NothingToIngest(v: StoreView, hasDbEnv: bool, kb: Option<seq<KbEntry>>, hasKey: bool,
                        envOf: (string, string) -> FileEnv)
    requires !hasDbEnv || kb.None? || forall e <- kb.value :: !e.isDir
    ensures RunSpec(v, hasDbEnv, kb, hasKey, envOf).0 == v
    ensures ExitCode(RunSpec(v, hasDbEnv, kb, hasKey, envOf).1) == if hasDbEnv then 0 else 1
  {
    if hasDbEnv && kb.Some? {
      NoSubjectDirs(kb.value);
    }
  }

  /**
   * The exit status of a run: a failure exactly when the database settings
   * are missing or one of the files the run visits, in the order it visits
   * them, fails to ingest; a missing `kb/` folder or an empty one exits
   * normally.
   */
  lemma RunExitCode(v: StoreView, hasDbEnv: bool, kb: Option<seq<KbEntry>>, hasKey: bool,
                    envOf: (string, string) -> FileEnv)
    ensures var jobs := if kb.Some? then Jobs(SubjectDirs(kb.value)) else [];
      ExitCode(RunSpec(v, hasDbEnv, kb, hasKey, envOf).1) ==
        if !hasDbEnv || exists i :: 0 <= i < |jobs| && JobFails(jobs[i], envOf) then 1 else 0
  {
    if hasDbEnv && kb.Some? {
      RunJobsOutcome(v, Jobs(SubjectDirs(kb.value)), hasKey, envOf);
    }
  }

  lemma {:induction false} NoSubjectDirs(entries: seq<KbEntry>)
    requires forall e <- entries :: !e.isDir
    ensures SubjectDirs(entries) == []
  {
    if entries != [] {
      assert entries[0] in entries;
      assert forall e <- entries[1..] :: e in entries;
      NoSubjectDirs(entries[1..]);
    }
  }
}

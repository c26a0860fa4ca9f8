/**
 * DocumentProcessor: the deduplicating document store (the `documents` and
 * `chunks` tables) and ranked retrieval over it. The content hash, text
 * extraction, the splitter and the per-chunk similarity scores are inputs.
 */
module CorpusStore {
  import opened Wrappers
  import opened Text
  import opened Repair
  import opened Ranking

  type Bytes = seq<bv8>

  /** The only status an ingest commits: the INSERT writes `processed` directly. */
  datatype Status = Processed

  /** A row of the `documents` table (the id is the key of the map that holds it). */
  datatype Document = Document(
    filename: string,
    fileHash: string,
    fileSize: nat,
    chunkCount: nat,
    status: Status)

  /** A row of the `chunks` table. */
  datatype ChunkRow = ChunkRow(documentId: int, chunkIndex: nat, text: string)

  /** What get_document_chunks reports per chunk. */
  datatype ChunkView = ChunkView(index: nat, text: string)

  datatype Format = Pdf | Docx | Txt | Md

  datatype Failure = UnsupportedFormat(suffix: string) | NoText | DuplicateFilename

  datatype IngestResult =
    | AlreadyExists(id: int)
    | Ingested(id: int, chunkCount: nat)
    | Failed(reason: Failure)

  // ---------------------------------------------------------------------
  // Suffix dispatch
  // ---------------------------------------------------------------------

  /** pathlib's `suffix`: from the last dot, unless that dot is first or last in the name. */
  function Suffix(name: string): (r: string)
    ensures r == [] || (|r| >= 2 && r[0] == '.' && '.' !in r[1..] && |r| < |name| && r == name[|name| - |r|..])
  {
    match LastIndexOf(name, '.')
    case None => ""
    case Some(i) => if 0 < i < |name| - 1 then name[i..] else ""
  }

  function LowerChar(c: char): char {
    if 'A' <= c <= 'Z' then (c as int + 32) as char else c
  }

  /** ASCII lower-casing; no other character lower-cases to a letter of the four suffixes. */
  function LowerAscii(s: string): (r: string)
    ensures |r| == |s|
    ensures forall k :: 0 <= k < |s| ==> r[k] == LowerChar(s[k])
  {
    seq(|s|, k requires 0 <= k < |s| => LowerChar(s[k]))
  }

  /** The four supported extensions, already lower-cased and without the dot. */
  function ByExtension(x: string): Option<Format> {
    if x == "pdf" then Some(Pdf)
    else if x == "docx" then Some(Docx)
    else if x == "txt" then Some(Txt)
    else if x == "md" then Some(Md)
    else None
  }

  /** extract_text's dispatch on the lower-cased suffix (the dot lower-cases to itself). */
  function FormatOf(filename: string): (r: Option<Format>)
    ensures r.Some? ==> '.' in filename
  {
    var sfx := Suffix(filename);
    if sfx == [] then None else ByExtension(LowerAscii(sfx[1..]))
  }

  /** The text of an upload, or the unsupported-format error; `read` stands for the per-format extractors. */
  function ExtractText(filename: string, content: Bytes, read: (Format, Bytes) -> string): (r: Result<string, Failure>)
    ensures r.Failure? <==> FormatOf(filename).None?
    ensures r.Failure? ==> r.error == UnsupportedFormat(LowerAscii(Suffix(filename)))
    ensures r.Success? ==> r.value == read(FormatOf(filename).value, content)
  {
    match FormatOf(filename)
    case None => Failure(UnsupportedFormat(LowerAscii(Suffix(filename))))
    case Some(f) => Success(read(f, content))
  }

  lemma {:induction false} LastDotBefore(stem: string, e: string)
    requires '.' !in e
    ensures LastIndexOf(stem + "." + e, '.') == Some(|stem|)
  {
    if e == [] {
      assert stem + "." + e == stem + ['.'];
    } else {
      var name := stem + "." + e;
      var init := e[..|e| - 1];
      assert name[..|name| - 1] == stem + "." + init;
      assert name[|name| - 1] == e[|e| - 1];
      assert '.' !in init by {
        assert forall k :: 0 <= k < |init| ==> init[k] == e[k];
      }
      LastDotBefore(stem, init);
    }
  }

  lemma SuffixOfName(stem: string, e: string)
    requires stem != [] && e != [] && '.' !in e
    ensures Suffix(stem + "." + e) == "." + e
  {
    LastDotBefore(stem, e);
    assert (stem + "." + e)[|stem|..] == "." + e;
  }

  /** A name `stem.ext` is dispatched on its last extension, in any letter case. */
  lemma FormatOfName(stem: string, e: string)
    requires stem != [] && e != [] && '.' !in e
    ensures FormatOf(stem + "." + e) == ByExtension(LowerAscii(e))
  {
    SuffixOfName(stem, e);
    assert ("." + e)[1..] == e;
  }

  /** A hidden file such as `.md` has no suffix in pathlib's sense, so it is rejected. */
  lemma DotFileRejected(e: string)
    requires '.' !in e
    ensures FormatOf("." + e).None?
  {
    LastDotBefore("", e);
    assert "" + "." + e == "." + e;
  }

  /** Text without capital ASCII letters is its own lower-case form. */
  lemma LowerAsciiOfLower(s: string)
    requires forall k :: 0 <= k < |s| ==> !('A' <= s[k] <= 'Z')
    ensures LowerAscii(s) == s
  {
  }

  /** A capitalised extension such as `Notes.MD` is read as Markdown. */
  lemma UpperCaseExtensionAccepted(stem: string, e: string)
    requires stem != [] && e == "MD"
    ensures FormatOf(stem + "." + e) == Some(Md)
  {
    FormatOfName(stem, e);
    var l := LowerAscii(e);
    assert l[0] == 'm' && l[1] == 'd';
    assert l == "md";
  }

  /** A name such as `paper.final.pdf`, whose stem has a dot of its own, is read as a PDF. */
  lemma LastExtensionDecides(stem: string, e: string)
    requires '.' in stem && e == "pdf"
    ensures FormatOf(stem + "." + e) == Some(Pdf)
  {
    FormatOfName(stem, e);
    LowerAsciiOfLower(e);
    assert ByExtension(e) == Some(Pdf);
  }

  /** A name such as `notes.md.bak` is unsupported: an extension earlier in the name does not count. */
  lemma EarlierExtensionIgnored(stem: string, e: string)
    requires '.' in stem && e == "bak"
    ensures FormatOf(stem + "." + e).None?
  {
    FormatOfName(stem, e);
    LowerAsciiOfLower(e);
    assert e[0] != "pdf"[0] && e[0] != "txt"[0];
    assert |e| != |"docx"| && |e| != |"md"|;
  }

  // ---------------------------------------------------------------------
  // The chunks table
  // ---------------------------------------------------------------------

  /** The chunk rows of document `d`, in table order. */
  function RowsOf(rows: seq<ChunkRow>, d: int): (r: seq<ChunkRow>)
    ensures |r| <= |rows|
    ensures forall k :: 0 <= k < |r| ==> r[k].documentId == d
  {
    if rows == [] then []
    else (if rows[0].documentId == d then [rows[0]] else []) + RowsOf(rows[1..], d)
  }

  /** The blocks of `ss` one after another. */
  function Flatten<T>(ss: seq<seq<T>>): seq<T> {
    if ss == [] then [] else Flatten(ss[..|ss| - 1]) + ss[|ss| - 1]
  }

  lemma FlattenAppend<T>(ss: seq<seq<T>>, b: seq<T>)
    ensures Flatten(ss + [b]) == Flatten(ss) + b
  {
    assert (ss + [b])[..|ss|] == ss;
  }

  /** Appending the next block keeps every earlier block where it was. */
  lemma BlocksAppend<T>(ss: seq<T>, b: T)
    ensures forall k :: 0 <= k < |ss| ==> (ss + [b])[k] == ss[k]
    ensures (ss + [b])[|ss|] == b
  {
  }

  lemma ConcatAssoc<T>(x: seq<T>, y: seq<T>, z: seq<T>)
    ensures x + (y + z) == (x + y) + z
  {
  }

  lemma RowsOfCons(x: ChunkRow, rest: seq<ChunkRow>, d: int)
    ensures RowsOf([x] + rest, d) == (if x.documentId == d then [x] else []) + RowsOf(rest, d)
  {
    assert ([x] + rest)[1..] == rest;
  }

  lemma {:induction false} RowsOfAppend(a: seq<ChunkRow>, b: seq<ChunkRow>, d: int)
    ensures RowsOf(a + b, d) == RowsOf(a, d) + RowsOf(b, d)
  {
    if a == [] {
      assert a + b == b;
    } else {
      var x, more := a[0], a[1..];
      var head := if x.documentId == d then [x] else [];
      assert a == [x] + more;
      assert a + b == [x] + (more + b);
      RowsOfCons(x, more + b, d);
      RowsOfCons(x, more, d);
      RowsOfAppend(more, b, d);
      ConcatAssoc(head, RowsOf(more, d), RowsOf(b, d));
    }
  }

  lemma {:induction false} RowsOfNone(rows: seq<ChunkRow>, d: int)
    requires forall k :: 0 <= k < |rows| ==> rows[k].documentId != d
    ensures RowsOf(rows, d) == []
  {
    if rows != [] {
      RowsOfNone(rows[1..], d);
    }
  }

  lemma {:induction false} RowsOfOwn(rows: seq<ChunkRow>, d: int)
    requires forall k :: 0 <= k < |rows| ==> rows[k].documentId == d
    ensures RowsOf(rows, d) == rows
  {
    if rows != [] {
      RowsOfOwn(rows[1..], d);
      assert rows == [rows[0]] + rows[1..];
    }
  }

  /** After the insertion, a new document's rows are exactly the added ones. */
  lemma OwnRowsAfterInsert(rows: seq<ChunkRow>, id: int, pieces: seq<string>)
    requires forall k :: 0 <= k < |rows| ==> rows[k].documentId != id
    ensures RowsOf(rows + NewRows(id, pieces), id) == NewRows(id, pieces)
  {
    var added := NewRows(id, pieces);
    RowsOfAppend(rows, added, id);
    RowsOfOwn(added, id);
    RowsOfNone(rows, id);
    assert [] + added == added;
  }

  /** The insertion leaves every other document's rows as they were. */
  lemma OtherRowsAfterInsert(rows: seq<ChunkRow>, id: int, pieces: seq<string>, d: int)
    requires d != id
    ensures RowsOf(rows + NewRows(id, pieces), d) == RowsOf(rows, d)
  {
    var added := NewRows(id, pieces);
    RowsOfAppend(rows, added, d);
    RowsOfNone(added, d);
    assert RowsOf(rows, d) + [] == RowsOf(rows, d);
  }

  /** The rows the insertion loop adds for a new document. */
  function NewRows(id: int, pieces: seq<string>): (r: seq<ChunkRow>)
    ensures |r| == |pieces|
    ensures forall k :: 0 <= k < |r| ==> r[k] == ChunkRow(id, k, pieces[k])
  {
    seq(|pieces|, k requires 0 <= k < |pieces| => ChunkRow(id, k, pieces[k]))
  }

  /** `rows` carries the chunk indices 0..n-1 in order. */
  predicate DenseRows(rows: seq<ChunkRow>, n: nat) {
    |rows| == n && forall k :: 0 <= k < |rows| ==> rows[k].chunkIndex == k
  }

  /** The `(chunk_index, chunk_text)` pairs of `rows`, in order. */
  function ViewsOf(rows: seq<ChunkRow>): (r: seq<ChunkView>)
    ensures |r| == |rows|
    ensures forall k :: 0 <= k < |rows| ==> r[k] == ChunkView(rows[k].chunkIndex, rows[k].text)
  {
    seq(|rows|, k requires 0 <= k < |rows| => ChunkView(rows[k].chunkIndex, rows[k].text))
  }

  /** One more row of the table: its view joins the result when it belongs to `id`. */
  lemma ViewsOfStep(rows: seq<ChunkRow>, i: nat, id: int)
    requires i < |rows|
    ensures ViewsOf(RowsOf(rows[..i + 1], id)) == ViewsOf(RowsOf(rows[..i], id))
      + (if rows[i].documentId == id then [ChunkView(rows[i].chunkIndex, rows[i].text)] else [])
  {
    assert rows[..i + 1] == rows[..i] + [rows[i]];
    RowsOfAppend(rows[..i], [rows[i]], id);
    assert [rows[i]][1..] == [];
    var a := RowsOf(rows[..i], id);
    var b := if rows[i].documentId == id then [rows[i]] else [];
    assert RowsOf([rows[i]], id) == b + [];
    assert b + [] == b;
    assert ViewsOf(a + b) == ViewsOf(a) + ViewsOf(b);
  }

  /** In valid tables the views of document `id` are its chunks by index, and none for an unknown id. */
  lemma ViewsOfValid(docs: map<int, Document>, rows: seq<ChunkRow>, next: int, id: int)
    requires ValidTables(docs, rows, next)
    ensures id !in docs ==> ViewsOf(RowsOf(rows, id)) == []
    ensures id in docs ==> |ViewsOf(RowsOf(rows, id))| == docs[id].chunkCount
    ensures forall k :: 0 <= k < |RowsOf(rows, id)| ==> ViewsOf(RowsOf(rows, id))[k].index == k
  {
    if id !in docs {
      RowsOfNone(rows, id);
    }
  }

  ghost predicate HasHash(docs: map<int, Document>, h: string) {
    exists id :: id in docs && docs[id].fileHash == h
  }

  ghost predicate NameTaken(docs: map<int, Document>, name: string) {
    exists id :: id in docs && docs[id].filename == name
  }

  /** `order` lists every stored document exactly once (get_documents' row order). */
  ghost predicate ListsEachOnce(order: seq<int>, docs: map<int, Document>) {
    Distinct(order) && forall d :: d in order <==> d in docs
  }

  lemma ListsEachOnceLength(order: seq<int>, docs: map<int, Document>)
    requires ListsEachOnce(order, docs)
    ensures |order| == |docs|
  {
    DistinctImageCard(order);
    var image := set q | 0 <= q < |order| :: order[q];
    forall d | d in docs.Keys ensures d in image {
      var q :| 0 <= q < |order| && order[q] == d;
    }
    forall d | d in image ensures d in docs.Keys {
      var q :| 0 <= q < |order| && order[q] == d;
      assert order[q] in order;
    }
    assert docs.Keys == image;
    assert |docs| == |docs.Keys|;
  }

  /** Some result reports chunk `j` of document `d`. */
  ghost predicate Reported(results: seq<ScoredChunk>, d: int, j: int) {
    exists p :: 0 <= p < |results| && results[p].documentId == d && results[p].chunkIndex == j
  }

  lemma ReportedAppend(a: seq<ScoredChunk>, b: seq<ScoredChunk>, d: int, j: int)
    requires Reported(a, d, j) || Reported(b, d, j)
    ensures Reported(a + b, d, j)
  {
    if Reported(a, d, j) {
      var p :| 0 <= p < |a| && a[p].documentId == d && a[p].chunkIndex == j;
      assert (a + b)[p] == a[p];
    } else {
      var p :| 0 <= p < |b| && b[p].documentId == d && b[p].chunkIndex == j;
      assert (a + b)[|a| + p] == b[p];
    }
  }

  /** No chunk is reported twice. */
  predicate DistinctKeys(s: seq<ScoredChunk>) {
    forall p, q :: 0 <= p < q < |s| ==> s[p].documentId != s[q].documentId || s[p].chunkIndex != s[q].chunkIndex
  }

  lemma {:induction false} DocCountNone(s: seq<ScoredChunk>, d: int)
    requires forall p :: 0 <= p < |s| ==> s[p].documentId != d
    ensures DocCount(s, d) == 0
  {
    if s != [] {
      DocCountNone(s[1..], d);
    }
  }

  /**
   * Ids are below the AUTOINCREMENT counter, every chunk row belongs to a stored
   * document, each document's rows are indexed 0..chunk_count-1 in table order,
   * and no two documents share a content hash or a filename.
   */
  ghost predicate ValidTables(docs: map<int, Document>, rows: seq<ChunkRow>, next: int) {
    && 1 <= next
    && (forall id :: id in docs ==> 1 <= id < next)
    && (forall k :: 0 <= k < |rows| ==> rows[k].documentId in docs)
    && (forall id :: id in docs ==> DenseRows(RowsOf(rows, id), docs[id].chunkCount))
    && (forall a, b :: a in docs && b in docs && a != b ==>
          docs[a].fileHash != docs[b].fileHash && docs[a].filename != docs[b].filename)
  }

  /** Inserting a fresh document under the counter's id, then its rows, keeps the tables valid. */
  lemma InsertKeepsValid(docs: map<int, Document>, rows: seq<ChunkRow>, next: int, doc: Document, pieces: seq<string>)
    requires ValidTables(docs, rows, next)
    requires !HasHash(docs, doc.fileHash) && !NameTaken(docs, doc.filename)
    requires doc.chunkCount == |pieces|
    ensures ValidTables(docs[next := doc], rows + NewRows(next, pieces), next + 1)
  {
    var docs', rows' := docs[next := doc], rows + NewRows(next, pieces);
    forall d | d in docs'
      ensures DenseRows(RowsOf(rows', d), docs'[d].chunkCount)
    {
      if d == next {
        OwnRowsAfterInsert(rows, next, pieces);
      } else {
        OtherRowsAfterInsert(rows, next, pieces, d);
      }
    }
    forall k | 0 <= k < |rows'|
      ensures rows'[k].documentId in docs'
    {
      if k >= |rows| {
        assert rows'[k] == NewRows(next, pieces)[k - |rows|];
      }
    }
    forall a, b | a in docs' && b in docs' && a != b
      ensures docs'[a].fileHash != docs'[b].fileHash && docs'[a].filename != docs'[b].filename
    {
      if a == next {
        assert b in docs;
      } else if b == next {
        assert a in docs;
      }
    }
  }

  /** Appending the row for piece `i` extends the rows of the first `i` pieces. */
  lemma NewRowsStep(id: int, pieces: seq<string>, i: nat)
    requires i < |pieces|
    ensures NewRows(id, pieces[..i + 1]) == NewRows(id, pieces[..i]) + [ChunkRow(id, i, pieces[i])]
  {
  }

  // ---------------------------------------------------------------------
  // The store
  // ---------------------------------------------------------------------

  class DocumentStore {
    var documents: map<int, Document>
    var chunkRows: seq<ChunkRow>
    /** The next AUTOINCREMENT id. */
    var nextId: int

    /** The two tables and the counter satisfy `ValidTables`. */
    ghost predicate Valid()
      reads this
    {
      ValidTables(documents, chunkRows, nextId)
    }

    constructor ()
      ensures Valid()
      ensures documents == map[] && chunkRows == [] && nextId == 1
    {
      documents := map[];
      chunkRows := [];
      nextId := 1;
    }

    /**
     * process_document. A known hash answers with the stored id and writes nothing;
     * an unsupported suffix, blank text or a filename already in use fail and
     * commit nothing; otherwise one document with a fresh id is inserted, then its
     * chunk rows in split order.
     */
    method ProcessDocument(content: Bytes, filename: string, sha256: Bytes -> string,
                           read: (Format, Bytes) -> string, split: string -> seq<string>)
      returns (r: IngestResult)
      requires Valid()
      modifies this
      ensures Valid()
      ensures r.AlreadyExists? <==> HasHash(old(documents), sha256(content))
      ensures r.AlreadyExists? ==> r.id in old(documents) && old(documents)[r.id].fileHash == sha256(content)
      ensures r == Failed(UnsupportedFormat(LowerAscii(Suffix(filename))))
          <==> !HasHash(old(documents), sha256(content)) && FormatOf(filename).None?
      ensures r == Failed(NoText)
          <==> (&& !HasHash(old(documents), sha256(content))
                && FormatOf(filename).Some?
                && AllSpace(read(FormatOf(filename).value, content)))
      ensures r == Failed(DuplicateFilename)
          <==> (&& !HasHash(old(documents), sha256(content))
                && FormatOf(filename).Some?
                && !AllSpace(read(FormatOf(filename).value, content))
                && NameTaken(old(documents), filename))
      ensures r.Ingested?
          <==> (&& !HasHash(old(documents), sha256(content))
                && FormatOf(filename).Some?
                && !AllSpace(read(FormatOf(filename).value, content))
                && !NameTaken(old(documents), filename))
      ensures r.Failed? && r.reason.UnsupportedFormat? ==> r.reason.suffix == LowerAscii(Suffix(filename))
      ensures !r.Ingested? ==> documents == old(documents) && chunkRows == old(chunkRows) && nextId == old(nextId)
      ensures r.Ingested? ==>
        (&& FormatOf(filename).Some?
         && var pieces := split(read(FormatOf(filename).value, content));
         && r.id == old(nextId)
         && r.id !in old(documents)
         && r.chunkCount == |pieces|
         && documents == old(documents)[r.id := Document(filename, sha256(content), |content|, |pieces|, Processed)]
         && chunkRows == old(chunkRows) + NewRows(r.id, pieces)
         && nextId == old(nextId) + 1)
    {
      var h := sha256(content);
      if existing :| existing in documents && documents[existing].fileHash == h {
        return AlreadyExists(existing);
      }
      var extracted := ExtractText(filename, content, read);
      if extracted.Failure? {
        return Failed(extracted.error);
      }
      var text := extracted.value;
      if Strip(text) == [] {
        return Failed(NoText);
      }
      var pieces := split(text);
      if exists other :: other in documents && documents[other].filename == filename {
        return Failed(DuplicateFilename);
      }
      var id := Insert(filename, h, |content|, pieces);
      return Ingested(id, |pieces|);
    }

    /** The INSERT into `documents` followed by the loop inserting the chunk rows. */
    method Insert(filename: string, h: string, size: nat, pieces: seq<string>) returns (id: int)
      requires Valid()
      requires !HasHash(documents, h) && !NameTaken(documents, filename)
      modifies this
      ensures Valid()
      ensures id == old(nextId) && id !in old(documents)
      ensures documents == old(documents)[id := Document(filename, h, size, |pieces|, Processed)]
      ensures chunkRows == old(chunkRows) + NewRows(id, pieces)
      ensures nextId == old(nextId) + 1
    {
      id := nextId;
      ghost var base := chunkRows;
      var doc := Document(filename, h, size, |pieces|, Processed);
      documents := documents[id := doc];
      nextId := nextId + 1;
      var i := 0;
      while i < |pieces|
        invariant 0 <= i <= |pieces|
        invariant chunkRows == base + NewRows(id, pieces[..i])
        invariant documents == old(documents)[id := doc]
        invariant nextId == id + 1
      {
        NewRowsStep(id, pieces, i);
        chunkRows := chunkRows + [ChunkRow(id, i, pieces[i])];
        i := i + 1;
      }
      assert pieces[..i] == pieces;
      InsertKeepsValid(old(documents), base, id, doc, pieces);
    }

    /** get_document_chunks: the document's chunks by ascending index, nothing for an unknown id. */
    method GetDocumentChunks(id: int) returns (views: seq<ChunkView>)
      requires Valid()
      ensures id !in documents ==> views == []
      ensures id in documents ==> |views| == documents[id].chunkCount
      ensures forall k :: 0 <= k < |views| ==> views[k].index == k
      ensures forall k :: 0 <= k < |views| ==> views[k].text == RowsOf(chunkRows, id)[k].text
    {
      views := [];
      var i := 0;
      while i < |chunkRows|
        invariant 0 <= i <= |chunkRows|
        invariant views == ViewsOf(RowsOf(chunkRows[..i], id))
      {
        ViewsOfStep(chunkRows, i, id);
        var row := chunkRows[i];
        if row.documentId == id {
          views := views + [ChunkView(row.chunkIndex, row.text)];
        }
        i := i + 1;
      }
      assert chunkRows[..i] == chunkRows;
      ViewsOfValid(documents, chunkRows, nextId, id);
    }

    /**
     * search_documents: each document (in `order`) contributes its best `topK`
     * chunks scoring above the threshold; the merged list is sorted by similarity,
     * highest first and stable, and cut to `topK` times the number of documents.
     */
    method SearchDocuments(topK: nat, order: seq<int>, scores: map<int, seq<real>>)
      returns (results: seq<ScoredChunk>, ghost merged: seq<ScoredChunk>, ghost blocks: seq<seq<ScoredChunk>>)
      requires Valid()
      requires ListsEachOnce(order, documents)
      requires forall d :: d in documents ==> d in scores && |scores[d]| == documents[d].chunkCount
      ensures |blocks| == |order| && merged == Flatten(blocks)
      ensures forall i :: 0 <= i < |order| ==> IsBlock(documents, chunkRows, blocks[i], topK, scores, order[i])
      ensures topK == 0 ==> results == []
      ensures topK >= 1 ==> results == SortBySimilarity(merged) && |merged| <= topK * |documents|
      ensures SortedDescending(results)
      ensures |results| <= topK * |documents|
      ensures forall p :: 0 <= p < |results| ==> IsHit(documents, chunkRows, results[p], topK, scores)
      ensures forall d :: DocCount(results, d) <= topK
      ensures DistinctKeys(results)
      ensures forall d, j :: d in documents && MustReport(scores, topK, d, j) ==> Reported(results, d, j)
    {
      results, merged, blocks := Search(documents, chunkRows, topK, order, scores);
    }
  }

  /** search_documents over the two tables. */
  method Search(docs: map<int, Document>, rows: seq<ChunkRow>, topK: nat, order: seq<int>, scores: map<int, seq<real>>)
    returns (results: seq<ScoredChunk>, ghost merged: seq<ScoredChunk>, ghost blocks: seq<seq<ScoredChunk>>)
    requires ListsEachOnce(order, docs)
    requires forall d :: d in docs ==> d in scores && |scores[d]| == |RowsOf(rows, d)|
    ensures |blocks| == |order| && merged == Flatten(blocks)
    ensures forall i :: 0 <= i < |order| ==> IsBlock(docs, rows, blocks[i], topK, scores, order[i])
    ensures topK == 0 ==> results == []
    ensures topK >= 1 ==> results == SortBySimilarity(merged) && |merged| <= topK * |docs|
    ensures SortedDescending(results)
    ensures |results| <= topK * |docs|
    ensures forall p :: 0 <= p < |results| ==> IsHit(docs, rows, results[p], topK, scores)
    ensures forall d :: DocCount(results, d) <= topK
    ensures DistinctKeys(results)
    ensures forall d, j :: d in docs && MustReport(scores, topK, d, j) ==> Reported(results, d, j)
  {
    ghost var ok := x => IsHit(docs, rows, x, topK, scores);
    ghost var must := (e, j) => MustReport(scores, topK, e, j);
    assert forall x :: ok(x) == IsHit(docs, rows, x, topK, scores);
    assert forall e, j :: must(e, j) == MustReport(scores, topK, e, j);
    var acc;
    acc, blocks := GatherBlocks(docs, rows, topK, order, scores, ok, must);
    merged := acc;
    SearchConclusion(docs, rows, acc, ok, must, topK, scores, order);
    results := Take(SortBySimilarity(acc), topK * |docs|);
  }

  /** The results one document contributes: what `SearchOne` promises about its block. */
  ghost predicate IsBlock(docs: map<int, Document>, rows: seq<ChunkRow>, block: seq<ScoredChunk>, topK: nat,
                          scores: map<int, seq<real>>, d: int) {
    && (forall p :: 0 <= p < |block| ==> IsHit(docs, rows, block[p], topK, scores) && block[p].documentId == d)
    && (forall p, q :: 0 <= p < q < |block| ==> block[p].chunkIndex != block[q].chunkIndex)
    && (topK >= 1 ==> |block| <= topK)
    && (forall j :: MustReport(scores, topK, d, j) ==> Reported(block, d, j))
    && SelectedBlock(docs, rows, block, topK, scores, d)
  }

  /** `block` is what some argsort-style selection of document `d`'s chunks yields. */
  ghost predicate SelectedBlock(docs: map<int, Document>, rows: seq<ChunkRow>, block: seq<ScoredChunk>, topK: nat,
                                scores: map<int, seq<real>>, d: int) {
    && d in docs && d in scores && |scores[d]| == |RowsOf(rows, d)|
    && exists top :: IsTopSelection(scores[d], topK, top)
        && block == HitsOf(d, docs[d].filename, RowsOf(rows, d), scores[d], top, |top|)
  }

  /** `blocks[k]` is the block of document `seen[k]`, for every `k`. */
  ghost predicate AllBlocks(docs: map<int, Document>, rows: seq<ChunkRow>, blocks: seq<seq<ScoredChunk>>, topK: nat,
                            scores: map<int, seq<real>>, seen: seq<int>) {
    |blocks| == |seen| && forall k :: 0 <= k < |blocks| ==> IsBlock(docs, rows, blocks[k], topK, scores, seen[k])
  }

  lemma AllBlocksStep(docs: map<int, Document>, rows: seq<ChunkRow>, blocks: seq<seq<ScoredChunk>>,
                      block: seq<ScoredChunk>, topK: nat, scores: map<int, seq<real>>, seen: seq<int>, d: int)
    requires AllBlocks(docs, rows, blocks, topK, scores, seen)
    requires IsBlock(docs, rows, block, topK, scores, d)
    ensures AllBlocks(docs, rows, blocks + [block], topK, scores, seen + [d])
  {
    BlocksAppend(blocks, block);
    BlocksAppend(seen, d);
  }

  /** The per-document loop: each document's block, in `order`, appended to the merge. */
  method GatherBlocks(docs: map<int, Document>, rows: seq<ChunkRow>, topK: nat, order: seq<int>,
                      scores: map<int, seq<real>>, ghost ok: ScoredChunk -> bool, ghost must: (int, int) -> bool)
    returns (acc: seq<ScoredChunk>, ghost blocks: seq<seq<ScoredChunk>>)
    requires ListsEachOnce(order, docs)
    requires forall d :: d in docs ==> d in scores && |scores[d]| == |RowsOf(rows, d)|
    requires forall x :: ok(x) == IsHit(docs, rows, x, topK, scores)
    requires forall e, j :: must(e, j) == MustReport(scores, topK, e, j)
    ensures |blocks| == |order| && acc == Flatten(blocks)
    ensures forall i :: 0 <= i < |order| ==> IsBlock(docs, rows, blocks[i], topK, scores, order[i])
    ensures Gathered(acc, ok, must, topK, order)
  {
    acc := [];
    blocks := [];
    var i := 0;
    while i < |order|
      invariant 0 <= i <= |order|
      invariant |blocks| == i && acc == Flatten(blocks)
      invariant AllBlocks(docs, rows, blocks, topK, scores, order[..i])
      invariant Gathered(acc, ok, must, topK, order[..i])
    {
      var d := order[i];
      assert d in docs;
      var block;
      ghost var top;
      block, top := SearchOne(docs, rows, d, topK, scores);
      assert IsBlock(docs, rows, block, topK, scores, d);
      GatherStep(docs, rows, topK, scores, ok, must, order, i, acc, blocks, block);
      acc := acc + block;
      blocks := blocks + [block];
      i := i + 1;
    }
    assert order[..i] == order;
  }

  /** One turn of the per-document loop: the block of `order[i]` joins the merge. */
  lemma GatherStep(docs: map<int, Document>, rows: seq<ChunkRow>, topK: nat, scores: map<int, seq<real>>,
                   ok: ScoredChunk -> bool, must: (int, int) -> bool, order: seq<int>, i: nat,
                   acc: seq<ScoredChunk>, blocks: seq<seq<ScoredChunk>>, block: seq<ScoredChunk>)
    requires i < |order| && Distinct(order)
    requires forall x :: ok(x) == IsHit(docs, rows, x, topK, scores)
    requires forall e, j :: must(e, j) == MustReport(scores, topK, e, j)
    requires AllBlocks(docs, rows, blocks, topK, scores, order[..i])
    requires Gathered(acc, ok, must, topK, order[..i])
    requires IsBlock(docs, rows, block, topK, scores, order[i])
    ensures Flatten(blocks + [block]) == Flatten(blocks) + block
    ensures AllBlocks(docs, rows, blocks + [block], topK, scores, order[..i + 1])
    ensures Gathered(acc + block, ok, must, topK, order[..i + 1])
  {
    var d := order[i];
    BlockForOf(block, docs, rows, ok, must, topK, scores, d);
    assert order[..i + 1] == order[..i] + [d];
    assert d !in order[..i];
    MergeStep(acc, block, ok, must, topK, order[..i], d);
    FlattenAppend(blocks, block);
    AllBlocksStep(docs, rows, blocks, block, topK, scores, order[..i], d);
  }

  /** A search result: a stored chunk above the threshold, among its document's `topK` best. */
  ghost predicate IsHit(docs: map<int, Document>, rows: seq<ChunkRow>, x: ScoredChunk, topK: nat, scores: map<int, seq<real>>) {
    && x.documentId in docs
    && x.documentId in scores
    && x.documentName == docs[x.documentId].filename
    && x.chunkIndex < |scores[x.documentId]|
    && x.chunkIndex < |RowsOf(rows, x.documentId)|
    && x.chunkText == RowsOf(rows, x.documentId)[x.chunkIndex].text
    && x.similarity == scores[x.documentId][x.chunkIndex]
    && x.similarity > Threshold
    && (topK >= 1 ==> AmongTop(scores[x.documentId], x.chunkIndex, topK))
  }

  /** Chunk `j` of document `d` scores above the threshold and is surely among its `topK` best. */
  ghost predicate MustReport(scores: map<int, seq<real>>, topK: nat, d: int, j: int) {
    && topK >= 1
    && d in scores
    && 0 <= j < |scores[d]|
    && scores[d][j] > Threshold
    && SurelyTop(scores[d], j, topK)
  }

  /** The results one document contributes: its selected chunks above the threshold. */
  method SearchOne(docs: map<int, Document>, rows: seq<ChunkRow>, d: int, topK: nat, scores: map<int, seq<real>>)
    returns (block: seq<ScoredChunk>, ghost top: seq<nat>)
    requires d in docs && d in scores && |scores[d]| == |RowsOf(rows, d)|
    ensures IsTopSelection(scores[d], topK, top)
    ensures block == HitsOf(d, docs[d].filename, RowsOf(rows, d), scores[d], top, |top|)
    ensures forall p :: 0 <= p < |block| ==> IsHit(docs, rows, block[p], topK, scores) && block[p].documentId == d
    ensures forall p, q :: 0 <= p < q < |block| ==> block[p].chunkIndex != block[q].chunkIndex
    ensures topK >= 1 ==> |block| <= topK
    ensures forall j :: MustReport(scores, topK, d, j) ==> Reported(block, d, j)
  {
    var s := scores[d];
    var picked := TopIndices(s, topK);
    top := picked;
    block := CollectHits(d, docs[d].filename, RowsOf(rows, d), s, picked);
    ghost var ok := x => IsHit(docs, rows, x, topK, scores);
    var name, own := docs[d].filename, RowsOf(rows, d);
    forall u | 0 <= u < |top| && s[top[u]] > Threshold
      ensures ok(ScoredChunk(d, name, top[u], own[top[u]].text, s[top[u]]))
    {
      SelectedIsHit(docs, rows, d, topK, scores, top, u);
    }
    HitsSoFar(d, name, own, s, top, ok, |top|);
    BlockConclusion(docs, rows, d, topK, scores, top, block, ok);
  }

  /**
   * The results the first `t` positions of `top` give, in their order: one for each
   * position that scores above the threshold.
   */
  function HitsOf(d: int, name: string, own: seq<ChunkRow>, s: seq<real>, top: seq<nat>, t: nat): (r: seq<ScoredChunk>)
    requires t <= |top| && forall u :: 0 <= u < |top| ==> top[u] < |s| && top[u] < |own|
    ensures |r| <= t
  {
    if t == 0 then []
    else
      var j := top[t - 1];
      HitsOf(d, name, own, s, top, t - 1)
        + (if s[j] > Threshold then [ScoredChunk(d, name, j, own[j].text, s[j])] else [])
  }

  /** When every selected position scores above the threshold, each one gives a result. */
  lemma {:induction false} HitsOfAllAbove(d: int, name: string, own: seq<ChunkRow>, s: seq<real>, top: seq<nat>, t: nat)
    requires t <= |top| && forall u :: 0 <= u < |top| ==> top[u] < |s| && top[u] < |own|
    requires forall u :: 0 <= u < t ==> s[top[u]] > Threshold
    ensures |HitsOf(d, name, own, s, top, t)| == t
  {
    if t > 0 {
      HitsOfAllAbove(d, name, own, s, top, t - 1);
    }
  }

  /**
   * Ties at the `top_k` boundary do not change how many chunks a document reports:
   * when every chunk scores above the threshold, its block has `min(top_k, n)`
   * results, however the tied scores were ordered (three chunks all scoring 0.4,
   * with `top_k` 2, give two results).
   */
  lemma BlockSizeAllAbove(docs: map<int, Document>, rows: seq<ChunkRow>, block: seq<ScoredChunk>, topK: nat,
                          scores: map<int, seq<real>>, d: int)
    requires SelectedBlock(docs, rows, block, topK, scores, d)
    requires forall j :: 0 <= j < |scores[d]| ==> scores[d][j] > Threshold
    ensures |block| == SelectionSize(topK, |scores[d]|)
  {
    var own := RowsOf(rows, d);
    var top :| IsTopSelection(scores[d], topK, top)
      && block == HitsOf(d, docs[d].filename, own, scores[d], top, |top|);
    HitsOfAllAbove(d, docs[d].filename, own, scores[d], top, |top|);
  }

  /** The loop over the selected positions: a result for each one above the threshold. */
  method CollectHits(d: int, name: string, own: seq<ChunkRow>, s: seq<real>, top: seq<nat>)
    returns (block: seq<ScoredChunk>)
    requires forall u :: 0 <= u < |top| ==> top[u] < |s| && top[u] < |own|
    ensures block == HitsOf(d, name, own, s, top, |top|)
  {
    block := [];
    for t := 0 to |top|
      invariant block == HitsOf(d, name, own, s, top, t)
    {
      var j := top[t];
      if s[j] > Threshold {
        block := block + [ScoredChunk(d, name, j, own[j].text, s[j])];
      }
    }
  }

  /** The results of the first `t` selected positions keep the per-chunk invariant. */
  lemma {:induction false} HitsSoFar(d: int, name: string, own: seq<ChunkRow>, s: seq<real>, top: seq<nat>,
                                     ok: ScoredChunk -> bool, t: nat)
    requires t <= |top| && Distinct(top) && forall u :: 0 <= u < |top| ==> top[u] < |s| && top[u] < |own|
    requires forall u :: 0 <= u < |top| && s[top[u]] > Threshold ==>
      ok(ScoredChunk(d, name, top[u], own[top[u]].text, s[top[u]]))
    ensures BlockSoFar(HitsOf(d, name, own, s, top, t), ok, d, s, top, t)
  {
    if t > 0 {
      HitsSoFar(d, name, own, s, top, ok, t - 1);
      var prev := HitsOf(d, name, own, s, top, t - 1);
      var j := top[t - 1];
      if s[j] > Threshold {
        var hit := ScoredChunk(d, name, j, own[j].text, s[j]);
        assert HitsOf(d, name, own, s, top, t) == prev + [hit];
        BlockGrows(prev, hit, ok, d, s, top, t - 1);
      } else {
        assert HitsOf(d, name, own, s, top, t) == prev + [];
        assert prev + [] == prev;
        BlockSkips(prev, ok, d, s, top, t - 1);
      }
    }
  }

  /** Once every selected position has been seen, the block is what `SearchOne` promises. */
  lemma BlockConclusion(docs: map<int, Document>, rows: seq<ChunkRow>, d: int, topK: nat, scores: map<int, seq<real>>,
                        top: seq<nat>, block: seq<ScoredChunk>, ok: ScoredChunk -> bool)
    requires d in scores && IsTopSelection(scores[d], topK, top)
    requires forall x :: ok(x) == IsHit(docs, rows, x, topK, scores)
    requires BlockSoFar(block, ok, d, scores[d], top, |top|)
    ensures forall p :: 0 <= p < |block| ==> IsHit(docs, rows, block[p], topK, scores) && block[p].documentId == d
    ensures forall p, q :: 0 <= p < q < |block| ==> block[p].chunkIndex != block[q].chunkIndex
    ensures topK >= 1 ==> |block| <= topK
    ensures forall j :: MustReport(scores, topK, d, j) ==> Reported(block, d, j)
  {
    var s := scores[d];
    assert top[..|top|] == top;
    forall j | MustReport(scores, topK, d, j) ensures Reported(block, d, j) {
      SurelyTopIsSelected(s, topK, top, j);
      var u :| 0 <= u < |top| && top[u] == j;
    }
  }

  /** A selected chunk above the threshold makes a valid result. */
  lemma SelectedIsHit(docs: map<int, Document>, rows: seq<ChunkRow>, d: int, topK: nat, scores: map<int, seq<real>>,
                      top: seq<nat>, t: nat)
    requires d in docs && d in scores && |scores[d]| == |RowsOf(rows, d)|
    requires IsTopSelection(scores[d], topK, top) && t < |top|
    requires scores[d][top[t]] > Threshold
    ensures IsHit(docs, rows, ScoredChunk(d, docs[d].filename, top[t], RowsOf(rows, d)[top[t]].text, scores[d][top[t]]), topK, scores)
  {
    if topK >= 1 {
      SelectedAreAmongTop(scores[d], topK, top, t);
    }
  }

  /** The per-chunk loop's invariant after the first `t` selected positions. */
  ghost predicate BlockSoFar(block: seq<ScoredChunk>, ok: ScoredChunk -> bool, d: int, s: seq<real>, top: seq<nat>, t: nat)
    requires t <= |top|
  {
    && |block| <= t
    && (forall p :: 0 <= p < |block| ==> ok(block[p]) && block[p].documentId == d && block[p].chunkIndex in top[..t])
    && (forall p, q :: 0 <= p < q < |block| ==> block[p].chunkIndex != block[q].chunkIndex)
    && (forall u :: 0 <= u < t && top[u] < |s| && s[top[u]] > Threshold ==> Reported(block, d, top[u]))
  }

  lemma BlockGrows(block: seq<ScoredChunk>, hit: ScoredChunk, ok: ScoredChunk -> bool, d: int, s: seq<real>, top: seq<nat>, t: nat)
    requires t < |top| && Distinct(top)
    requires BlockSoFar(block, ok, d, s, top, t)
    requires ok(hit) && hit.documentId == d && hit.chunkIndex == top[t]
    ensures BlockSoFar(block + [hit], ok, d, s, top, t + 1)
  {
    var all := block + [hit];
    assert top[..t + 1] == top[..t] + [top[t]];
    assert top[t] !in top[..t];
    assert forall p :: 0 <= p < |block| ==> all[p] == block[p];
    assert all[|block|] == hit;
    forall u | 0 <= u < t + 1 && top[u] < |s| && s[top[u]] > Threshold ensures Reported(all, d, top[u]) {
      if u < t {
        ReportedAppend(block, [hit], d, top[u]);
      } else {
        assert [hit][0] == hit;
        ReportedAppend(block, [hit], d, top[u]);
      }
    }
  }

  lemma BlockSkips(block: seq<ScoredChunk>, ok: ScoredChunk -> bool, d: int, s: seq<real>, top: seq<nat>, t: nat)
    requires t < |top| && top[t] < |s| && s[top[t]] <= Threshold
    requires BlockSoFar(block, ok, d, s, top, t)
    ensures BlockSoFar(block, ok, d, s, top, t + 1)
  {
    assert top[..t + 1] == top[..t] + [top[t]];
  }

  /** What the per-document loop has established for the documents in `seen`. */
  ghost predicate Gathered(acc: seq<ScoredChunk>, ok: ScoredChunk -> bool, must: (int, int) -> bool, topK: nat, seen: seq<int>) {
    && (forall p :: 0 <= p < |acc| ==> ok(acc[p]) && acc[p].documentId in seen)
    && DistinctKeys(acc)
    && (topK >= 1 ==> |acc| <= topK * |seen|)
    && (topK >= 1 ==> forall e :: DocCount(acc, e) <= (if e in seen then topK else 0))
    && (forall e, j :: e in seen && must(e, j) ==> Reported(acc, e, j))
  }

  lemma BlockForOf(block: seq<ScoredChunk>, docs: map<int, Document>, rows: seq<ChunkRow>,
                   ok: ScoredChunk -> bool, must: (int, int) -> bool, topK: nat, scores: map<int, seq<real>>, d: int)
    requires forall x :: ok(x) == IsHit(docs, rows, x, topK, scores)
    requires forall e, j :: must(e, j) == MustReport(scores, topK, e, j)
    requires IsBlock(docs, rows, block, topK, scores, d)
    ensures BlockFor(block, ok, must, topK, d)
  {
  }

  /** What one document's block brings to the merge. */
  ghost predicate BlockFor(block: seq<ScoredChunk>, ok: ScoredChunk -> bool, must: (int, int) -> bool, topK: nat, d: int) {
    && (forall p :: 0 <= p < |block| ==> ok(block[p]) && block[p].documentId == d)
    && (forall p, q :: 0 <= p < q < |block| ==> block[p].chunkIndex != block[q].chunkIndex)
    && (topK >= 1 ==> |block| <= topK)
    && (forall j :: must(d, j) ==> Reported(block, d, j))
  }

  lemma MergeStep(acc: seq<ScoredChunk>, block: seq<ScoredChunk>, ok: ScoredChunk -> bool, must: (int, int) -> bool,
                  topK: nat, seen: seq<int>, d: int)
    requires d !in seen
    requires Gathered(acc, ok, must, topK, seen)
    requires BlockFor(block, ok, must, topK, d)
    ensures Gathered(acc + block, ok, must, topK, seen + [d])
  {
    MergeHits(acc, block, ok, seen, d);
    MergeKeys(acc, block, seen, d);
    MergeCounts(acc, block, topK, seen, d);
    forall e, j | e in seen + [d] && must(e, j) ensures Reported(acc + block, e, j) {
      ReportedAppend(acc, block, e, j);
    }
  }

  lemma MergeHits(acc: seq<ScoredChunk>, block: seq<ScoredChunk>, ok: ScoredChunk -> bool, seen: seq<int>, d: int)
    requires forall p :: 0 <= p < |acc| ==> ok(acc[p]) && acc[p].documentId in seen
    requires forall p :: 0 <= p < |block| ==> ok(block[p]) && block[p].documentId == d
    ensures forall p :: 0 <= p < |acc + block| ==> ok((acc + block)[p]) && (acc + block)[p].documentId in seen + [d]
  {
    forall p | 0 <= p < |acc + block|
      ensures ok((acc + block)[p]) && (acc + block)[p].documentId in seen + [d]
    {
      if p < |acc| {
        assert (acc + block)[p] == acc[p];
      } else {
        assert (acc + block)[p] == block[p - |acc|];
      }
    }
  }

  lemma MergeKeys(acc: seq<ScoredChunk>, block: seq<ScoredChunk>, seen: seq<int>, d: int)
    requires d !in seen
    requires forall p :: 0 <= p < |acc| ==> acc[p].documentId in seen
    requires DistinctKeys(acc)
    requires forall p :: 0 <= p < |block| ==> block[p].documentId == d
    requires forall p, q :: 0 <= p < q < |block| ==> block[p].chunkIndex != block[q].chunkIndex
    ensures DistinctKeys(acc + block)
  {
    var all := acc + block;
    forall p, q | 0 <= p < q < |all|
      ensures all[p].documentId != all[q].documentId || all[p].chunkIndex != all[q].chunkIndex
    {
      if q < |acc| {
        assert all[p] == acc[p] && all[q] == acc[q];
      } else if p < |acc| {
        assert all[p] == acc[p] && all[q] == block[q - |acc|];
      } else {
        assert all[p] == block[p - |acc|] && all[q] == block[q - |acc|];
      }
    }
  }

  lemma MergeCounts(acc: seq<ScoredChunk>, block: seq<ScoredChunk>, topK: nat, seen: seq<int>, d: int)
    requires d !in seen
    requires forall p :: 0 <= p < |acc| ==> acc[p].documentId in seen
    requires forall p :: 0 <= p < |block| ==> block[p].documentId == d
    requires topK >= 1 ==> |acc| <= topK * |seen| && |block| <= topK
    requires topK >= 1 ==> forall e :: DocCount(acc, e) <= (if e in seen then topK else 0)
    ensures topK >= 1 ==> |acc + block| <= topK * |seen + [d]|
    ensures topK >= 1 ==> forall e :: DocCount(acc + block, e) <= (if e in seen + [d] then topK else 0)
  {
    if topK >= 1 {
      assert topK * |seen + [d]| == topK * |seen| + topK;
      forall e ensures DocCount(acc + block, e) <= (if e in seen + [d] then topK else 0) {
        DocCountAppend(acc, block, e);
        if e == d {
          DocCountNone(acc, d);
        } else {
          DocCountNone(block, e);
        }
      }
    }
  }

  /** The merge, sort and cut, stated in the store's terms. */
  lemma SearchConclusion(docs: map<int, Document>, rows: seq<ChunkRow>, acc: seq<ScoredChunk>,
                         ok: ScoredChunk -> bool, must: (int, int) -> bool, topK: nat, scores: map<int, seq<real>>,
                         order: seq<int>)
    requires forall x :: ok(x) == IsHit(docs, rows, x, topK, scores)
    requires forall e, j :: must(e, j) == MustReport(scores, topK, e, j)
    requires Gathered(acc, ok, must, topK, order)
    requires ListsEachOnce(order, docs)
    ensures var results := Take(SortBySimilarity(acc), topK * |docs|);
      && (topK == 0 ==> results == [])
      && (topK >= 1 ==> results == SortBySimilarity(acc) && |acc| <= topK * |docs|)
      && SortedDescending(results)
      && |results| <= topK * |docs|
      && (forall p :: 0 <= p < |results| ==> IsHit(docs, rows, results[p], topK, scores))
      && (forall d :: DocCount(results, d) <= topK)
      && DistinctKeys(results)
      && (forall d, j :: d in docs && MustReport(scores, topK, d, j) ==> Reported(results, d, j))
  {
    ListsEachOnceLength(order, docs);
    FinishSearch(acc, ok, must, topK, order);
    var sorted := SortBySimilarity(acc);
    if topK == 0 {
      assert Take(sorted, topK * |docs|) == [];
    } else {
      assert Take(sorted, topK * |docs|) == sorted;
      assert |sorted| <= topK * |docs|;
    }
  }

  lemma FinishSearch(acc: seq<ScoredChunk>, ok: ScoredChunk -> bool, must: (int, int) -> bool, topK: nat, order: seq<int>)
    requires Gathered(acc, ok, must, topK, order)
    ensures topK == 0 ==> Take(SortBySimilarity(acc), topK * |order|) == []
    ensures topK >= 1 ==> Take(SortBySimilarity(acc), topK * |order|) == SortBySimilarity(acc)
    ensures topK >= 1 ==> |acc| <= topK * |order|
    ensures SortedDescending(SortBySimilarity(acc))
    ensures forall p :: 0 <= p < |SortBySimilarity(acc)| ==> ok(SortBySimilarity(acc)[p])
    ensures forall d :: DocCount(Take(SortBySimilarity(acc), topK * |order|), d) <= topK
    ensures DistinctKeys(SortBySimilarity(acc))
    ensures forall d, j :: d in order && must(d, j) ==> Reported(SortBySimilarity(acc), d, j)
  {
    var sorted := SortBySimilarity(acc);
    SortIsSorted(acc);
    SortedMembers(acc);
    SortedKeys(acc);
    forall d ensures DocCount(sorted, d) == DocCount(acc, d) {
      SortKeepsDocCount(acc, d);
    }
    if topK >= 1 {
      assert Take(sorted, topK * |order|) == sorted;
    }
    forall d, j | d in order && must(d, j) ensures Reported(sorted, d, j) {
      SortedReported(acc, d, j);
    }
  }

  lemma SortedMembers(acc: seq<ScoredChunk>)
    ensures forall p :: 0 <= p < |SortBySimilarity(acc)| ==> SortBySimilarity(acc)[p] in acc
  {
    var sorted := SortBySimilarity(acc);
    forall p | 0 <= p < |sorted| ensures sorted[p] in acc {
      assert sorted[p] in multiset(sorted);
    }
  }

  lemma SortedKeys(acc: seq<ScoredChunk>)
    requires DistinctKeys(acc)
    ensures DistinctKeys(SortBySimilarity(acc))
  {
    var sorted := SortBySimilarity(acc);
    SortedMembers(acc);
    assert Distinct(acc);
    SortKeepsDistinct(acc);
    forall p, q | 0 <= p < q < |sorted|
      ensures sorted[p].documentId != sorted[q].documentId || sorted[p].chunkIndex != sorted[q].chunkIndex
    {
      var p' :| 0 <= p' < |acc| && acc[p'] == sorted[p];
      var q' :| 0 <= q' < |acc| && acc[q'] == sorted[q];
      assert p' != q';
    }
  }

  lemma SortedReported(acc: seq<ScoredChunk>, d: int, j: int)
    requires Reported(acc, d, j)
    ensures Reported(SortBySimilarity(acc), d, j)
  {
    var sorted := SortBySimilarity(acc);
    var p :| 0 <= p < |acc| && acc[p].documentId == d && acc[p].chunkIndex == j;
    assert acc[p] in multiset(sorted);
    var q :| 0 <= q < |sorted| && sorted[q] == acc[p];
  }

  /** Uploading the same content again, under any filename, answers with the first upload's id. */
  method UploadTwice(store: DocumentStore, content: Bytes, first: string, second: string, sha256: Bytes -> string,
                     read: (Format, Bytes) -> string, split: string -> seq<string>)
    returns (r1: IngestResult, r2: IngestResult)
    requires store.Valid()
    modifies store
    ensures store.Valid()
    ensures r1.Ingested? ==> r2 == AlreadyExists(r1.id)
    ensures r1.AlreadyExists? ==> r2 == r1
  {
    r1 := store.ProcessDocument(content, first, sha256, read, split);
    ghost var docs := store.documents;
    r2 := store.ProcessDocument(content, second, sha256, read, split);
    if r1.Ingested? || r1.AlreadyExists? {
      assert r1.id in docs && docs[r1.id].fileHash == sha256(content);
    }
  }
}

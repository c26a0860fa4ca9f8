/**
 * Concept extraction from a backend reply (LLMService.extract_concepts and
 * LLMService._create_fallback_concepts): a direct decode of the trimmed reply,
 * then a decode of the greedy `{...}` match (without comma repair), then the
 * deterministic fallback. Every exception is caught, so the operation always
 * returns a value.
 */
module Concepts {
  import opened Wrappers
  import opened Text
  import opened Json
  import opened Repair

  const MaxConcepts: nat := 8
  const NameWords: nat := 6
  const NameLimit: nat := 50
  const DescriptionLimit: nat := 100
  const DescriptionLead: string := "Key topic from document: "

  // ---------------------------------------------------------------------
  // Fallback concepts
  // ---------------------------------------------------------------------

  /** `name[:50] + "..." if len(name) > 50 else name`. */
  function Shorten(name: string): (r: string)
    ensures |r| <= NameLimit + 3
    ensures |name| <= NameLimit ==> r == name
    ensures |name| > NameLimit ==>
      (|r| == NameLimit + 3 && r[..NameLimit] == name[..NameLimit] && r[NameLimit..] == "...")
  {
    if |name| > NameLimit then name[..NameLimit] + "..." else name
  }

  /** The first six words joined by single spaces, or "Topic <index + 1>" for a blank chunk. */
  function ConceptName(index: nat, chunk: string): (r: string)
    ensures r != []
    ensures AllSpace(chunk) ==> r == "Topic " + NatToString(index + 1)
    ensures !AllSpace(chunk) ==> Words(r) == Take(Words(chunk), NameWords)
    ensures !AllSpace(chunk) ==> SingleSpaced(r)
  {
    var words := Take(Words(chunk), NameWords);
    if words != [] then
      WordsOfJoin(words);
      JoinSingleSpaced(words);
      Join(words, " ")
    else "Topic " + NatToString(index + 1)
  }

  /** The dict built for chunk number `index`. */
  function FallbackConcept(index: nat, chunk: string): (c: Value)
    ensures c.Object? && c.fields.Keys == {"main", "sub", "description"}
    ensures c.fields["main"] == c.fields["sub"] == Str(Shorten(ConceptName(index, chunk)))
    ensures c.fields["main"].Str? && 1 <= |c.fields["main"].s| <= NameLimit + 3
    ensures c.fields["description"] == Str(DescriptionLead + Take(chunk, DescriptionLimit) + "...")
  {
    var name := Shorten(ConceptName(index, chunk));
    Object(map[
      "main" := Str(name),
      "sub" := Str(name),
      "description" := Str(DescriptionLead + Take(chunk, DescriptionLimit) + "...")])
  }

  /**
   * A name of at most 50 characters is used as it is; a blank chunk among the first
   * eight is labelled with its 1-based position.
   */
  lemma FallbackConceptName(index: nat, chunk: string)
    ensures |ConceptName(index, chunk)| <= NameLimit ==>
      FallbackConcept(index, chunk).fields["main"] == Str(ConceptName(index, chunk))
    ensures index < MaxConcepts && AllSpace(chunk) ==>
      FallbackConcept(index, chunk).fields["main"] == Str("Topic " + [DigitChar(index + 1)])
  {
  }

  ghost predicate IsFallbackConcepts(concepts: seq<Value>, chunks: seq<string>) {
    && |concepts| == |Take(chunks, MaxConcepts)|
    && forall i :: 0 <= i < |concepts| ==> concepts[i] == FallbackConcept(i, chunks[i])
  }

  /** Appending the next expected element keeps the prefix in agreement with `e`. */
  lemma AppendAgrees<T>(s: seq<T>, x: T, e: seq<T>)
    requires |s| < |e| && x == e[|s|]
    requires forall k :: 0 <= k < |s| ==> s[k] == e[k]
    ensures forall k :: 0 <= k < |s| + 1 ==> (s + [x])[k] == e[k]
  {
  }

  /** `for i, chunk in enumerate(chunks[:8]): concepts.append(...)`. */
  method CreateFallbackConcepts(chunks: seq<string>) returns (concepts: seq<Value>)
    ensures IsFallbackConcepts(concepts, chunks)
  {
    var used := Take(chunks, MaxConcepts);
    ghost var expected := seq(|used|, k requires 0 <= k < |used| => FallbackConcept(k, used[k]));
    concepts := [];
    for i := 0 to |used|
      invariant |concepts| == i
      invariant forall k :: 0 <= k < i ==> concepts[k] == expected[k]
    {
      var c := FallbackConcept(i, used[i]);
      AppendAgrees(concepts, c, expected);
      concepts := concepts + [c];
    }
    assert forall k :: 0 <= k < |used| ==> used[k] == chunks[k];
  }

  // ---------------------------------------------------------------------
  // The pipeline
  // ---------------------------------------------------------------------

  /** `len()` is defined on the value: it is a string, a list or a dict. */
  predicate Sized(v: Value) {
    v.Str? || v.Array? || v.Object?
  }

  datatype Attempt =
    /** The decoded object has a truthy "concepts" entry whose length can be printed. */
    | Found(concepts: Value)
    /** Decoding failed (JSONDecodeError, caught locally) or "concepts" is missing or falsy. */
    | NotFound
    /**
     * An exception only the outer handler catches: `.get` on a decoded value that is
     * not an object, or `len()` on a truthy number or boolean in the progress message.
     */
    | Escaped

  function Try(decoded: Option<Value>): (a: Attempt)
    ensures decoded.None? ==> a == NotFound
    ensures a.Found? <==>
      decoded.Some? && decoded.value.Object?
      && Truthy(Get(decoded.value.fields, "concepts", Array([])))
      && Sized(Get(decoded.value.fields, "concepts", Array([])))
    ensures a.Found? ==> "concepts" in decoded.value.fields && a.concepts == decoded.value.fields["concepts"]
    ensures a.Escaped? <==>
      decoded.Some? && (!decoded.value.Object?
        || (Truthy(Get(decoded.value.fields, "concepts", Array([])))
            && !Sized(Get(decoded.value.fields, "concepts", Array([])))))
    ensures decoded.Some? && decoded.value.Object? && "concepts" !in decoded.value.fields ==> a == NotFound
  {
    match decoded
    case None => NotFound
    case Some(v) =>
      if !v.Object? then Escaped
      else
        var concepts := Get(v.fields, "concepts", Array([]));
        if !Truthy(concepts) then NotFound
        else if Sized(concepts) then Found(concepts)
        else Escaped
  }

  /** The direct attempt on the trimmed reply (first stage). */
  function Direct(response: string, parse: string -> Option<Value>): (a: Attempt)
    ensures parse(Strip(response)).None? ==> a == NotFound
    ensures a.Escaped? ==> parse(Strip(response)).Some?
    ensures a.Found? ==> var d := parse(Strip(response));
      d.Some? && d.value.Object? && "concepts" in d.value.fields
      && a.concepts == d.value.fields["concepts"] && Truthy(a.concepts) && Sized(a.concepts)
  {
    Try(parse(Strip(response)))
  }

  /** The attempt on the greedy match of the raw reply, decoded as it is (second stage). */
  function Extracted(response: string, parse: string -> Option<Value>): (a: Attempt)
    ensures ExtractObject(response).None? ==> a == NotFound
    ensures a.Escaped? ==> ExtractObject(response).Some? && parse(ExtractObject(response).value).Some?
    ensures a.Found? ==> ExtractObject(response).Some? && var d := parse(ExtractObject(response).value);
      d.Some? && d.value.Object? && "concepts" in d.value.fields
      && a.concepts == d.value.fields["concepts"] && Truthy(a.concepts) && Sized(a.concepts)
  {
    match ExtractObject(response)
    case None => NotFound
    case Some(m) => Try(parse(m))
  }

  method ExtractConcepts(chunks: seq<string>, response: string, parse: string -> Option<Value>)
    returns (r: Value)
    ensures chunks == [] ==> r == Array([])
    ensures chunks != [] ==> Truthy(r)
    ensures chunks != [] && Direct(response, parse).Found? ==> r == Direct(response, parse).concepts
    ensures chunks != [] && Direct(response, parse).NotFound? && Extracted(response, parse).Found? ==>
      r == Extracted(response, parse).concepts
    ensures (chunks != [] && !Direct(response, parse).Found?
             && (Direct(response, parse).Escaped? || !Extracted(response, parse).Found?)) ==>
      r.Array? && IsFallbackConcepts(r.items, chunks)
  {
    if chunks == [] {
      return Array([]);
    }
    var direct := Try(parse(Strip(response)));
    if direct.Found? {
      return direct.concepts;
    }
    if direct.NotFound? {
      var found := ExtractObject(response);
      if found.Some? {
        var second := Try(parse(found.value));
        if second.Found? {
          return second.concepts;
        }
      }
    }
    var fallback := CreateFallbackConcepts(chunks);
    r := Array(fallback);
  }
}

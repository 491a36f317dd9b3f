/**
 * The retrieval layer (`RAGModule`): an append-only document store kept in
 * lockstep with the rows of a vector index, a retriever that walks the
 * index's candidates, and the rendering of retrieved documents into an LLM
 * system prompt.
 *
 * The embedder and the FAISS index are not modelled: a search is an oracle
 * `index(k)` that yields the candidate row numbers for `k` requested
 * neighbours, or None when encoding or searching raised. Rendering a
 * metadata value with `str()` is the parameter `show`.
 */
module Rag {
  import opened Wrappers
  import opened OrderedDict
  import opened Values
  import opened Strings

  /** `RAG_TOP_K` and `RAG_ENABLED` as configured. */
  const DefaultTopK: int := 5
  const RagEnabled: bool := true

  /** A chunk of text with its metadata. */
  datatype Document = Document(text: string, metadata: Dict)

  /** The documents and the number of rows in the vector index. */
  datatype Store = Store(documents: seq<Document>, rows: nat)

  /** Row `i` of the index embeds document `i`. */
  predicate Aligned(s: Store) {
    |s.documents| == s.rows
  }

  /** The store after `add_documents`, and what the call returned or raised. */
  datatype AddOutcome = AddOutcome(store: Store, added: Result<nat>)

  /**
   * `add_documents`. `embedded` says whether encoding and `index.add`
   * succeeded, `saved` whether writing the index and the pickle did. The
   * in-memory store is extended before saving, so a failed save leaves it
   * extended and still raises.
   */
  function AddDocuments(s: Store, docs: seq<Document>, embedded: bool, saved: bool): (r: AddOutcome)
    ensures Aligned(s) ==> Aligned(r.store)
    ensures s.documents <= r.store.documents
    ensures r.store.documents == s.documents || r.store.documents == s.documents + docs
    ensures |docs| == 0 ==> r == AddOutcome(s, Ok(0))
    ensures r.added.Ok? ==> r.added.value == |docs| && r.store.documents == s.documents + docs
    ensures r.added.Err? <==> |docs| > 0 && !(embedded && saved)
    ensures |docs| > 0 && !embedded ==> r.store == s
    ensures |docs| > 0 && embedded ==> r.store == Store(s.documents + docs, s.rows + |docs|)
  {
    if |docs| == 0 then AddOutcome(s, Ok(0))
    else if !embedded then AddOutcome(s, Err("embedding failed"))
    else
      var s' := Store(s.documents + docs, s.rows + |docs|);
      if saved then AddOutcome(s', Ok(|docs|)) else AddOutcome(s', Err("saving the index failed"))
  }

  // ---------------------------------------------------------------------------
  // Metadata filter.

  /** A filter value admits a metadata value: membership for a list, equality otherwise. */
  predicate Admits(filterValue: Value, v: Value) {
    if filterValue.VList? then v in filterValue.items else v == filterValue
  }

  /** `_matches_filter`: the first failing filter entry decides. */
  predicate MatchesFilter(metadata: Dict, filter: Dict)
    decreases |filter|
  {
    if |filter| == 0 then true
    else
      match Lookup(metadata, filter[0].0)
      case None => false
      case Some(v) => Admits(filter[0].1, v) && MatchesFilter(metadata, filter[1..])
  }

  /** The filter entry `(key, value)` holds of `metadata`. */
  predicate EntryHolds(metadata: Dict, entry: (string, Value)) {
    match Lookup(metadata, entry.0)
    case Some(v) => Admits(entry.1, v)
    case None => false
  }

  /** A document matches exactly when every filter entry holds; an empty filter matches everything. */
  lemma {:induction false} MatchesFilterSpec(metadata: Dict, filter: Dict)
    ensures MatchesFilter(metadata, filter) <==> forall i :: 0 <= i < |filter| ==> EntryHolds(metadata, filter[i])
    decreases |filter|
  {
    if |filter| > 0 {
      MatchesFilterSpec(metadata, filter[1..]);
      assert forall i :: 1 <= i < |filter| ==> filter[i] == filter[1..][i - 1];
    }
  }

  // ---------------------------------------------------------------------------
  // Retrieval.

  /** Python's `documents[idx]`: negative indices count from the end; None is an IndexError. */
  function Resolve(n: nat, idx: int): (r: Option<nat>)
    ensures r.Some? <==> 0 <= idx + n && idx < n
    ensures r.Some? ==> r.value < n && (r.value == idx || r.value == n + idx)
  {
    if 0 <= idx < n then Some(idx)
    else if 0 <= idx + n && idx < 0 then Some(n + idx)
    else None
  }

  /** FAISS pads a short answer with -1; Python reads that as the last document. */
  lemma PaddingIsLastDocument(n: nat)
    requires 0 < n
    ensures Resolve(n, -1) == Some(n - 1)
  {
  }

  /** Some candidate is below `-n`: reading it raises IndexError. */
  predicate Faults(n: nat, hits: seq<int>) {
    exists j :: 0 <= j < |hits| && hits[j] + n < 0
  }

  lemma FaultAt(n: nat, hits: seq<int>, i: nat)
    requires i < |hits| && hits[i] + n < 0
    ensures Faults(n, hits)
  {
  }

  /** The document a candidate contributes when the walk reaches it: in range and passing the filter. */
  function Pick(docs: seq<Document>, idx: int, filter: Dict): (r: seq<Document>)
    ensures |r| <= 1
  {
    match Resolve(|docs|, idx)
    case Some(p) => if MatchesFilter(docs[p].metadata, filter) then [docs[p]] else []
    case None => []
  }

  /** The documents of all candidates that resolve and pass the filter, in candidate order. */
  function Eligible(docs: seq<Document>, hits: seq<int>, filter: Dict): seq<Document>
    decreases |hits|
  {
    if |hits| == 0 then []
    else Eligible(docs, hits[..|hits| - 1], filter) + Pick(docs, hits[|hits| - 1], filter)
  }

  /** Every eligible document is a stored document that passes the filter. */
  lemma {:induction false} EligibleSound(docs: seq<Document>, hits: seq<int>, filter: Dict)
    ensures forall d :: d in Eligible(docs, hits, filter) ==> d in docs && MatchesFilter(d.metadata, filter)
    decreases |hits|
  {
    if |hits| > 0 {
      EligibleSound(docs, hits[..|hits| - 1], filter);
    }
  }

  /** Walking more candidates only extends the eligible list. */
  lemma {:induction false} EligiblePrefix(docs: seq<Document>, hits: seq<int>, filter: Dict, j: nat)
    requires j <= |hits|
    ensures Eligible(docs, hits[..j], filter) <= Eligible(docs, hits, filter)
    decreases |hits| - j
  {
    if j < |hits| {
      EligiblePrefix(docs, hits[..|hits| - 1], filter, j);
      assert hits[..|hits| - 1][..j] == hits[..j];
      assert hits[..|hits|] == hits;
    } else {
      assert hits[..j] == hits;
    }
  }

  /** The first `k` elements, or all of them when there are fewer. */
  function Take<T>(s: seq<T>, k: int): (r: seq<T>)
    ensures r <= s
    ensures |r| == if k < 0 then 0 else if k <= |s| then k else |s|
  {
    if k <= 0 then [] else if k <= |s| then s[..k] else s
  }

  /** `top_k`, defaulting to `RAG_TOP_K`. */
  function TopK(topK: Option<int>): int {
    match topK
    case Some(k) => k
    case None => DefaultTopK
  }

  /** One more candidate adds what it picks. */
  lemma EligibleStep(docs: seq<Document>, hits: seq<int>, filter: Dict, i: nat)
    requires i < |hits|
    ensures Eligible(docs, hits[..i + 1], filter) == Eligible(docs, hits[..i], filter) + Pick(docs, hits[i], filter)
  {
    assert hits[..i + 1][..i] == hits[..i];
  }

  /** A walk that reaches `k` documents at candidate `i` has kept exactly the first `k` eligible ones. */
  lemma StopsAtK(docs: seq<Document>, hits: seq<int>, filter: Dict, i: nat, k: int)
    requires i < |hits|
    requires |Eligible(docs, hits[..i], filter)| < k <= |Eligible(docs, hits[..i + 1], filter)|
    ensures Eligible(docs, hits[..i + 1], filter) == Take(Eligible(docs, hits, filter), k)
  {
    EligibleStep(docs, hits, filter, i);
    EligiblePrefix(docs, hits, filter, i + 1);
  }

  /**
   * The loop of `search` over the candidates `hits`: keeps the documents
   * that resolve and pass the filter, and stops as soon as `k` are kept. A
   * candidate at or past the end of the store is skipped, a negative one is
   * read from the end, and one below `-len(documents)` raises, which the
   * handler turns into no results.
   */
  method Walk(docs: seq<Document>, hits: seq<int>, k: int, filter: Dict) returns (results: seq<Document>)
    ensures results <= Eligible(docs, hits, filter)
    ensures 1 <= k ==> |results| <= k
    ensures k < 1 ==> |results| <= 1
    ensures Faults(|docs|, hits) && 1 <= k ==> results == [] || |results| == k
    ensures !Faults(|docs|, hits) && 1 <= k ==> results == Take(Eligible(docs, hits, filter), k)
  {
    results := [];
    var i := 0;
    while i < |hits|
      invariant 0 <= i <= |hits|
      invariant results == Eligible(docs, hits[..i], filter)
      invariant !Faults(|docs|, hits[..i])
      invariant 0 < i ==> |results| < k
      invariant k < 1 ==> i == 0
    {
      var idx := hits[i];
      var picked: seq<Document> := [];
      if idx < |docs| {
        if idx + |docs| < 0 {
          FaultAt(|docs|, hits, i);
          return [];
        }
        var doc := docs[if idx < 0 then |docs| + idx else idx];
        if MatchesFilter(doc.metadata, filter) {
          picked := [doc];
        }
      }
      assert picked == Pick(docs, idx, filter);
      EligibleStep(docs, hits, filter, i);
      results := results + picked;
      assert !Faults(|docs|, hits[..i + 1]) by {
        assert hits[..i + 1][..i] == hits[..i];
      }
      if |results| >= k {
        EligiblePrefix(docs, hits, filter, i + 1);
        if 1 <= k {
          StopsAtK(docs, hits, filter, i, k);
        }
        return;
      }
      i := i + 1;
    }
    assert hits[..i] == hits;
  }

  /**
   * `search`: nothing from an empty store; otherwise `2 * top_k` candidates
   * from the vector index (`index`, None when it raises) walked by `Walk`.
   */
  method Search(s: Store, topK: Option<int>, filter: Dict, index: int -> Option<seq<int>>)
    returns (results: seq<Document>)
    ensures |s.documents| == 0 ==> results == []
    ensures index(2 * TopK(topK)).None? ==> results == []
    ensures 1 <= TopK(topK) ==> |results| <= TopK(topK)
    ensures TopK(topK) < 1 ==> |results| <= 1
    ensures
      && 1 <= TopK(topK)
      && index(2 * TopK(topK)).Some?
      && Faults(|s.documents|, index(2 * TopK(topK)).value)
      ==> results == [] || |results| == TopK(topK)
    ensures index(2 * TopK(topK)).Some? ==> results <= Eligible(s.documents, index(2 * TopK(topK)).value, filter)
    ensures
      && 0 < |s.documents|
      && 1 <= TopK(topK)
      && index(2 * TopK(topK)).Some?
      && !Faults(|s.documents|, index(2 * TopK(topK)).value)
      ==> results == Take(Eligible(s.documents, index(2 * TopK(topK)).value, filter), TopK(topK))
  {
    if |s.documents| == 0 {
      return [];
    }
    var k := TopK(topK);
    var candidates := index(2 * k);
    if candidates.None? {
      return [];
    }
    results := Walk(s.documents, candidates.value, k, filter);
  }

  // ---------------------------------------------------------------------------
  // Context and prompt.

  /** `" (Source: s)"` when there is a source, then `", d"` whenever there is a date. */
  function Annotation(metadata: Dict, show: Value -> string): string {
    (match Lookup(metadata, "source") case Some(v) => " (Source: " + show(v) + ")" case None => "")
    + (match Lookup(metadata, "date") case Some(v) => ", " + show(v) case None => "")
  }

  /** The annotation is empty exactly when the metadata has neither a source nor a date. */
  lemma AnnotationEmpty(metadata: Dict, show: Value -> string)
    ensures Annotation(metadata, show) == "" <==> !Has(metadata, "source") && !Has(metadata, "date")
  {
    GetSome(metadata, "source");
    GetSome(metadata, "date");
    if Has(metadata, "source") {
      assert |Annotation(metadata, show)| >= |" (Source: "|;
    } else if Has(metadata, "date") {
      assert |Annotation(metadata, show)| >= |", "|;
    }
  }

  /** The block of the `i`-th retrieved document (0-based). */
  function Block(i: nat, d: Document, show: Value -> string): (b: string)
    ensures |b| > 0
  {
    "[Document " + NatToString(i + 1) + "]" + Annotation(d.metadata, show) + "\n" + d.text + "\n"
  }

  /** The blocks of retrieved documents, numbered from `from + 1`. */
  function Blocks(docs: seq<Document>, from: nat, show: Value -> string): (bs: seq<string>)
    ensures |bs| == |docs|
    ensures forall i :: 0 <= i < |docs| ==> bs[i] == Block(from + i, docs[i], show)
  {
    seq(|docs|, i requires 0 <= i < |docs| => Block(from + i, docs[i], show))
  }

  /** `generate_context` given the search results. */
  function GenerateContext(results: seq<Document>, show: Value -> string): string {
    if |results| == 0 then "" else Join(Blocks(results, 0, show), "\n")
  }

  lemma {:induction false} JoinNonEmpty(parts: seq<string>, sep: string)
    requires |parts| > 0 && |parts[0]| > 0
    ensures |Join(parts, sep)| >= |parts[0]|
  {
  }

  /** The context is empty exactly when nothing was retrieved. */
  lemma ContextEmptyIff(results: seq<Document>, show: Value -> string)
    ensures GenerateContext(results, show) == "" <==> |results| == 0
  {
    if |results| > 0 {
      JoinNonEmpty(Blocks(results, 0, show), "\n");
    }
  }

  /** `Join` lays its parts out in order: part `i` occurs right after the parts before it and their separators. */
  lemma {:induction false} JoinHasPart(parts: seq<string>, sep: string, i: nat)
    requires i < |parts|
    ensures exists off :: OccursAt(Join(parts, sep), parts[i], off)
    decreases i
  {
    var j := Join(parts, sep);
    if |parts| == 1 {
      assert OccursAt(j, parts[0], 0);
    } else if i == 0 {
      assert j == parts[0] + (sep + Join(parts[1..], sep));
      assert OccursAt(j, parts[0], 0);
    } else {
      JoinHasPart(parts[1..], sep, i - 1);
      var off :| OccursAt(Join(parts[1..], sep), parts[1..][i - 1], off);
      var pre := parts[0] + sep;
      assert j == pre + Join(parts[1..], sep);
      OccursShift(pre, Join(parts[1..], sep), parts[i], off);
    }
  }

  /** An occurrence in `b` is an occurrence in `a + b`, shifted by `|a|`. */
  lemma OccursShift(a: string, b: string, sub: string, off: int)
    requires OccursAt(b, sub, off)
    ensures OccursAt(a + b, sub, |a| + off)
  {
    forall j | 0 <= j < |sub| ensures (a + b)[|a| + off + j] == sub[j] {
      assert b[off + j] == sub[j];
    }
  }

  /** Every retrieved document's text appears in the context. */
  lemma ContextHoldsTexts(results: seq<Document>, show: Value -> string, i: nat)
    requires i < |results|
    ensures exists off :: OccursAt(GenerateContext(results, show), results[i].text, off)
  {
    var bs := Blocks(results, 0, show);
    JoinHasPart(bs, "\n", i);
    var off :| OccursAt(Join(bs, "\n"), bs[i], off);
    var pre := "[Document " + NatToString(i + 1) + "]" + Annotation(results[i].metadata, show) + "\n";
    assert bs[i] == pre + results[i].text + "\n";
    OccursMiddle(pre, results[i].text, "\n");
    OccursTrans(Join(bs, "\n"), bs[i], results[i].text, off, |pre|);
    assert OccursAt(GenerateContext(results, show), results[i].text, off + |pre|);
  }

  const ContextIntro: string := "\n\nUse the following financial documents as context for your response:\n\n"
  const ContextOutro: string := "\n\nFocus on providing accurate information based on these documents when relevant to the query.\n"

  /** `augment_prompt` given the context `generate_context` produced. */
  function AugmentPrompt(enabled: bool, systemPrompt: string, context: string): (r: string)
    ensures !enabled || context == "" ==> r == systemPrompt
    ensures enabled && context != "" ==> |r| > |systemPrompt| + |context|
  {
    if !enabled || context == "" then systemPrompt
    else "\n" + systemPrompt + ContextIntro + context + ContextOutro
  }

  /** The prompt is left as it is exactly when retrieval is off or found nothing. */
  lemma AugmentUnchangedIff(enabled: bool, systemPrompt: string, results: seq<Document>, show: Value -> string)
    ensures var context := if enabled then GenerateContext(results, show) else "";
      AugmentPrompt(enabled, systemPrompt, context) == systemPrompt <==> !enabled || |results| == 0
  {
    ContextEmptyIff(results, show);
  }

  /** An augmented prompt holds the system prompt after its first line break, followed by the context. */
  lemma AugmentKeepsParts(systemPrompt: string, context: string)
    requires context != ""
    ensures OccursAt(AugmentPrompt(true, systemPrompt, context), systemPrompt, 1)
    ensures OccursAt(AugmentPrompt(true, systemPrompt, context), context, 1 + |systemPrompt| + |ContextIntro|)
  {
    var r := AugmentPrompt(true, systemPrompt, context);
    assert r == "\n" + systemPrompt + ContextIntro + context + ContextOutro;
    forall j | 0 <= j < |systemPrompt| ensures r[1 + j] == systemPrompt[j] {
    }
    forall j | 0 <= j < |context| ensures r[1 + |systemPrompt| + |ContextIntro| + j] == context[j] {
    }
  }
}

// The Ollama embedding client (soupboss/embeddings.py). The server is an
// oracle: what `list()` answers, whether `pull()` succeeds, and the vector
// (if any) `embeddings()` returns for a model and a prompt.
module Embeddings {
  import opened Wrappers
  import opened Text

  /** Characters kept by _clean_text before the "..." marker. */
  const MaxChars := 30000

  /** One entry of the server's model listing: its 'name' and 'model'
      keys, either of which may be missing. */
  datatype ModelEntry = ModelEntry(name: Option<string>, model: Option<string>)

  /** The Ollama server as seen by the client. `listing` is None when
      `list()` raises; `embed` is None when `embeddings()` raises or its
      response has no 'embedding' key. */
  datatype Server = Server(
    listing: Option<seq<ModelEntry>>,
    pullSucceeds: bool,
    embed: (string, string) -> Option<seq<real>>)

  /** model.get('name', model.get('model', '')) */
  function EntryName(e: ModelEntry): string {
    match e.name
    case Some(n) => n
    case None => e.model.GetOr("")
  }

  /** The model appears in the listing under its own name or with the
      ":latest" tag. */
  predicate Listed(entries: seq<ModelEntry>, model: string) {
    exists e :: e in entries && (EntryName(e) == model || EntryName(e) == model + ":latest")
  }

  /** What ensure_model_ready finds out the first time it runs: the model is
      listed, or pulling it succeeds; a failing listing means not ready. */
  predicate Available(server: Server, model: string) {
    match server.listing
    case None => false
    case Some(entries) => Listed(entries, model) || server.pullSucceeds
  }

  /** _clean_text: None and "" give ""; otherwise whitespace runs become one
      space with the ends trimmed, and a result longer than MaxChars keeps
      its first MaxChars characters followed by "...". */
  function CleanText(text: Option<string>): (r: string)
    ensures |r| <= MaxChars + 3
    ensures IsCollapsed(r)
    ensures text.None? || text.value == [] ==> r == []
  {
    if text.None? || text.value == [] then ""
    else
      var cleaned := CollapseWhitespace(text.value);
      if |cleaned| > MaxChars then
        TruncatedCollapsed(cleaned, MaxChars);
        cleaned[..MaxChars] + "..."
      else cleaned
  }

  /** Cutting a collapsed string after a non-empty prefix and appending
      "..." leaves it collapsed: a space at the cut is followed by '.'. */
  lemma TruncatedCollapsed(c: string, n: nat)
    requires IsCollapsed(c) && 0 < n < |c|
    ensures IsCollapsed(c[..n] + "...")
  {
    var r := c[..n] + "...";
    forall i | 0 <= i < |r| && IsSpace(r[i])
      ensures r[i] == ' ' && 0 < i && i + 1 < |r| && !IsSpace(r[i + 1])
    {
      assert i < n && r[i] == c[i];
      if i + 1 < n {
        assert r[i + 1] == c[i + 1];
      } else {
        assert r[i + 1] == '.';
      }
    }
  }

  /** A cleaned text that fits keeps exactly the words of the text; a
      longer one is its first MaxChars characters followed by "...". */
  lemma CleanTextContents(text: Option<string>)
    requires text.Some?
    ensures |CollapseWhitespace(text.value)| <= MaxChars ==> Words(CleanText(text)) == Words(text.value)
    ensures |CollapseWhitespace(text.value)| > MaxChars ==>
              var r := CleanText(text);
              |r| == MaxChars + 3 && EndsWith(r, "...")
              && r[..MaxChars] == CollapseWhitespace(text.value)[..MaxChars]
  {
    if text.value == [] {
      assert Words([]) == [];
    }
  }

  /** Cleaning an already cleaned text changes nothing. */
  lemma CleanTextIdempotent(text: Option<string>)
    ensures CleanText(Some(CleanText(text))) == CleanText(text)
  {
    var r := CleanText(text);
    if r != [] {
      CollapsedIsFixpoint(r);
      if |r| > MaxChars {
        var c := CollapseWhitespace(text.value);
        assert r == c[..MaxChars] + "...";
        assert r[..MaxChars] == c[..MaxChars];
      }
    }
  }

  /** generate_embedding once readiness is known: None when the model is
      not ready, when the cleaned text is empty (for a cleaned text, the
      same as blank), and when the server gives no embedding or an empty
      one; otherwise the server's vector for the cleaned text. */
  function EmbeddingOf(server: Server, model: string, ready: bool, text: Option<string>): Option<seq<real>> {
    if !ready then None
    else
      var cleaned := CleanText(text);
      if cleaned == [] then None
      else
        match server.embed(model, cleaned)
        case None => None
        case Some(v) => if v == [] then None else Some(v)
  }

  /** A collapsed text is blank exactly when it is empty. */
  lemma CollapsedBlank(c: string)
    requires IsCollapsed(c)
    ensures Strip(c) == [] <==> c == []
  {
    if c != [] {
      assert !IsSpace(c[0]);
    }
  }

  /** A text made only of whitespace never gets an embedding. */
  lemma {:induction false} BlankTextHasNoEmbedding(server: Server, model: string, ready: bool, s: string)
    requires forall i :: 0 <= i < |s| ==> IsSpace(s[i])
    ensures EmbeddingOf(server, model, ready, Some(s)) == None
  {
    BlankHasNoWords(s);
    assert CollapseWhitespace(s) == Join(" ", []);
  }

  lemma NotReadyHasNoEmbedding(server: Server, model: string, texts: seq<Option<string>>)
    ensures forall i :: 0 <= i < |texts| ==> EmbeddingOf(server, model, false, texts[i]) == None
  {
  }

  /** The vectors of a ready client for each text, in order. */
  function EmbeddingsOf(server: Server, model: string, texts: seq<Option<string>>): (r: seq<Option<seq<real>>>)
    ensures |r| == |texts|
    ensures forall i :: 0 <= i < |texts| ==> r[i] == EmbeddingOf(server, model, true, texts[i])
  {
    if texts == [] then []
    else EmbeddingsOf(server, model, texts[..|texts| - 1]) + [EmbeddingOf(server, model, true, texts[|texts| - 1])]
  }

  /** The readiness cache after a call to ensure_model_ready. */
  function ReadyAfter(cached: Option<bool>, server: Server, model: string): (r: Option<bool>)
    ensures r.Some?
    ensures cached.Some? ==> r == cached
    ensures cached.None? ==> (r.value <==> Available(server, model))
  {
    if cached.Some? then cached else Some(Available(server, model))
  }

  /** OllamaEmbeddingClient: a server, the model it asks for, and the
      memoised readiness flag (None until first checked). */
  class EmbeddingClient {
    const server: Server
    const model: string
    var modelReady: Option<bool>
    /** How many times the client has asked the server for its listing. */
    ghost var listCalls: nat

    constructor (server: Server, model: string)
      ensures this.server == server && this.model == model
      ensures modelReady == None && listCalls == 0
    {
      this.server := server;
      this.model := model;
      modelReady := None;
      listCalls := 0;
    }

    /** ensure_model_ready: a cached answer is returned without contacting
        the server; otherwise the answer is worked out once and cached,
        failures included. */
    method EnsureModelReady() returns (ready: bool)
      modifies this
      ensures modelReady == ReadyAfter(old(modelReady), server, model) && ready == modelReady.value
      ensures old(modelReady).Some? ==> listCalls == old(listCalls)
      ensures old(modelReady).None? ==> listCalls == old(listCalls) + 1
    {
      if modelReady.Some? {
        return modelReady.value;
      }
      listCalls := listCalls + 1;
      match server.listing {
        case None =>
          ready := false;
        case Some(entries) =>
          if Listed(entries, model) {
            ready := true;
          } else {
            ready := server.pullSucceeds;
          }
      }
      modelReady := Some(ready);
    }

    /** generate_embedding: never raises; every failure is None. */
    method GenerateEmbedding(text: Option<string>) returns (r: Option<seq<real>>)
      modifies this
      ensures modelReady == ReadyAfter(old(modelReady), server, model)
      ensures r == EmbeddingOf(server, model, modelReady.value, text)
      ensures old(modelReady).Some? ==> listCalls == old(listCalls)
    {
      var ready := EnsureModelReady();
      if !ready {
        return None;
      }
      var cleaned := CleanText(text);
      CollapsedBlank(cleaned);
      if Strip(cleaned) == [] {
        return None;
      }
      match server.embed(model, cleaned) {
        case None =>
          r := None;
        case Some(v) =>
          r := if v == [] then None else Some(v);
      }
    }

    /** generate_embeddings_batch: one slot per text, in input order; all
        None when the model is not ready. */
    method GenerateEmbeddingsBatch(texts: seq<Option<string>>) returns (out: seq<Option<seq<real>>>)
      modifies this
      ensures modelReady == ReadyAfter(old(modelReady), server, model)
      ensures |out| == |texts|
      ensures forall i :: 0 <= i < |texts| ==> out[i] == EmbeddingOf(server, model, modelReady.value, texts[i])
      ensures !modelReady.value ==> forall i :: 0 <= i < |out| ==> out[i] == None
      ensures old(modelReady).Some? ==> listCalls == old(listCalls)
    {
      var ready := EnsureModelReady();
      if !ready {
        out := seq(|texts|, i => None);
        NotReadyHasNoEmbedding(server, model, texts);
        return;
      }
      out := EmbedEach(texts);
    }

    /** The loop of generate_embeddings_batch on a ready client. */
    method EmbedEach(texts: seq<Option<string>>) returns (out: seq<Option<seq<real>>>)
      requires modelReady == Some(true)
      modifies this
      ensures modelReady == Some(true) && listCalls == old(listCalls)
      ensures |out| == |texts|
      ensures forall i :: 0 <= i < |texts| ==> out[i] == EmbeddingOf(server, model, true, texts[i])
    {
      out := [];
      for i := 0 to |texts|
        invariant modelReady == Some(true) && listCalls == old(listCalls)
        invariant out == EmbeddingsOf(server, model, texts[..i])
      {
        var e := GenerateEmbedding(texts[i]);
        assert texts[..i + 1][..i] == texts[..i];
        out := out + [e];
      }
      assert texts[..|texts|] == texts;
    }
  }
}

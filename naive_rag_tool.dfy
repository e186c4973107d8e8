/** `tools/naive_rag_tool.py`: the retrieval tool built per query, whose
    payload drops the `source + "\n\n"` header that each indexed passage
    carries. Names, labels and the search configuration are those of
    `core/retriever.py`; only the payload values differ. */
module NaiveRagTool {
  import opened Sanitize
  import opened Retriever

  const SourceKey: string := "source"
  const BlankLines: string := "\n\n"

  predicate OccursAt(s: string, pat: string, i: nat) {
    i + |pat| <= |s| && s[i..i + |pat|] == pat
  }

  ghost predicate Occurs(s: string, pat: string) {
    exists i: nat :: OccursAt(s, pat, i)
  }

  /** `s.replace(pat, "")`: occurrences are found left to right and removed
      without overlapping. Replacing the empty string by the empty string
      leaves `s` as it is. */
  function RemoveAll(s: string, pat: string): (r: string)
    ensures |r| <= |s|
    decreases |s|
  {
    if pat == [] || |s| < |pat| then s
    else if s[..|pat|] == pat then RemoveAll(s[|pat|..], pat)
    else [s[0]] + RemoveAll(s[1..], pat)
  }

  /** Nothing changes when the pattern does not occur. */
  lemma {:induction false} RemoveAllWithoutOccurrence(s: string, pat: string)
    requires !Occurs(s, pat)
    ensures RemoveAll(s, pat) == s
    decreases |s|
  {
    if pat != [] && |s| >= |pat| {
      assert !OccursAt(s, pat, 0);
      assert s[..|pat|] != pat;
      forall i: nat | OccursAt(s[1..], pat, i) ensures OccursAt(s, pat, i + 1) {
        assert s[1..][i..i + |pat|] == s[i + 1..i + 1 + |pat|];
      }
      RemoveAllWithoutOccurrence(s[1..], pat);
      assert s == [s[0]] + s[1..];
    }
  }

  /** A leading occurrence is removed and the scan goes on after it. */
  lemma RemoveAllLeading(pat: string, body: string)
    requires pat != []
    ensures RemoveAll(pat + body, pat) == RemoveAll(body, pat)
  {
    var s := pat + body;
    assert s[..|pat|] == pat;
    assert s[|pat|..] == body;
  }

  /** Text before the first occurrence is kept as it is, that occurrence is
      removed, and the scan goes on after it. Together with
      `RemoveAllWithoutOccurrence` this determines `RemoveAll` on every
      string. */
  lemma {:induction false} RemoveAllAfterPrefix(a: string, pat: string, b: string)
    requires pat != []
    requires forall i: nat :: i < |a| ==> !OccursAt(a + pat + b, pat, i)
    ensures RemoveAll(a + pat + b, pat) == a + RemoveAll(b, pat)
    decreases |a|
  {
    if a == [] {
      assert a + pat + b == pat + b;
      RemoveAllLeading(pat, b);
    } else {
      NoOccurrenceInTail(a, pat, b);
      RemoveAllAfterPrefix(a[1..], pat, b);
      RemoveAllSkipsFirst(a, pat, b);
      assert [a[0]] + (a[1..] + RemoveAll(b, pat)) == a + RemoveAll(b, pat);
    }
  }

  /** Without an occurrence at the start, the first character is kept. */
  lemma RemoveAllSkipsFirst(a: string, pat: string, b: string)
    requires pat != [] && a != [] && !OccursAt(a + pat + b, pat, 0)
    ensures RemoveAll(a + pat + b, pat) == [a[0]] + RemoveAll(a[1..] + pat + b, pat)
  {
    var s := a + pat + b;
    assert s[1..] == a[1..] + pat + b;
  }

  lemma NoOccurrenceInTail(a: string, pat: string, b: string)
    requires a != []
    requires forall i: nat :: i < |a| ==> !OccursAt(a + pat + b, pat, i)
    ensures forall i: nat :: i < |a[1..]| ==> !OccursAt(a[1..] + pat + b, pat, i)
  {
    var s := a + pat + b;
    var t := a[1..] + pat + b;
    forall i: nat | i < |a[1..]| ensures !OccursAt(t, pat, i) {
      assert !OccursAt(s, pat, i + 1);
      assert t[i..i + |pat|] == s[i + 1..i + 1 + |pat|];
    }
  }

  /** `doc.metadata.get("source", "")`. */
  function SourceOf(doc: Doc): string {
    if SourceKey in doc.metadata then doc.metadata[SourceKey] else ""
  }

  /** The text removed from each passage: its source followed by a blank
      line; with no source, every `"\n\n"`. */
  function SourcePattern(doc: Doc): (pat: string)
    ensures |pat| >= 2 && pat[|pat| - 2..] == BlankLines
    ensures SourceKey !in doc.metadata ==> pat == BlankLines
  {
    SourceOf(doc) + BlankLines
  }

  /** One payload value:
      `doc.page_content.replace(doc.metadata.get("source", "") + "\n\n", "")`. */
  function NaiveContent(doc: Doc): (v: string)
    ensures |v| <= |doc.pageContent|
  {
    RemoveAll(doc.pageContent, SourcePattern(doc))
  }

  /** A passage without the header is passed through unchanged. */
  lemma PassageWithoutHeaderIsKept(doc: Doc)
    requires !Occurs(doc.pageContent, SourcePattern(doc))
    ensures NaiveContent(doc) == doc.pageContent
  {
    RemoveAllWithoutOccurrence(doc.pageContent, SourcePattern(doc));
  }

  /** A passage stored as `source + "\n\n" + body` comes back as `body`
      when the body does not repeat the header. */
  lemma HeaderIsStripped(doc: Doc, body: string)
    requires doc.pageContent == SourcePattern(doc) + body
    requires !Occurs(body, SourcePattern(doc))
    ensures NaiveContent(doc) == body
  {
    RemoveAllLeading(SourcePattern(doc), body);
    RemoveAllWithoutOccurrence(body, SourcePattern(doc));
  }

  /** `_kb_func`'s payload for the documents `retriever.invoke(query)`
      returned: one entry per document, labelled in retrieval order, each
      value its header-stripped text. */
  function NaivePayload(docs: seq<Doc>): (p: seq<(string, string)>)
    ensures |p| == |docs|
    ensures forall i :: 0 <= i < |docs| ==> p[i].0 == PayloadKey(i)
    ensures forall i :: 0 <= i < |docs| ==>
              PayloadKey(i) in AsDict(p) && AsDict(p)[PayloadKey(i)] == NaiveContent(docs[i]) &&
              |AsDict(p)[PayloadKey(i)]| <= |docs[i].pageContent|
    ensures docs == [] <==> AsDict(p) == map[]
  {
    var values := seq(|docs|, i requires 0 <= i < |docs| => NaiveContent(docs[i]));
    PayloadDict(values);
    Payload(values)
  }

  /** The search `_kb_func` sets up on every call (lines 21 to 31), with
      the collection named as in `CreateRetriever`. */
  function NaiveSearchConfig(repoRoot: string, vectorstoreName: string, hash: string -> int): (c: SearchConfig)
    ensures IsCollectionName(c.collectionName)
    ensures c.collectionName == CorrectedChromaCollectionName(vectorstoreName, hash)
    ensures |ChromaCleaned(vectorstoreName)| <= ChromaMaxLength ==> c.collectionName == ToChromaCollectionName(vectorstoreName, hash)
    ensures c.persistDirectory == KbVectorstorePath(repoRoot, vectorstoreName)
    ensures c.searchType == SearchType && c.k == 3 && c.scoreThreshold == 0.15
  {
    var collection := CorrectedChromaCollectionName(vectorstoreName, hash);
    var c := SearchConfig(collection, PosixJoin(repoRoot, ["kb", vectorstoreName, "vectorstore"]), SearchType, 3, 0.15);
    if |ChromaCleaned(vectorstoreName)| <= ChromaMaxLength then CorrectedChromaAgreesWhenUncut(vectorstoreName, hash); c else c
  }

  /** It is the configuration `create_retriever` builds for the same name. */
  lemma NaiveSearchMatchesRetriever(repoRoot: string, vectorstoreName: string, hash: string -> int)
    ensures NaiveSearchConfig(repoRoot, vectorstoreName, hash) == CreateRetriever(repoRoot, vectorstoreName, hash)
  {
  }

  /** `get_naive_rag_tool`: the same name and description `create_tool`
      gives, with the name capped as in `CreateTool`. */
  function GetNaiveRagTool(vectorstoreName: string, hash: string -> int): (t: Tool)
    ensures AllIn(t.name, ToolChars) && MinLength + |ToolSuffix| <= |t.name| <= OpenAiNameLimit
    ensures |ToolSuffix| <= |t.name| && t.name[|t.name| - |ToolSuffix|..] == ToolSuffix
    ensures |ToolName(vectorstoreName, hash)| <= OpenAiNameLimit ==> t.name == ToolName(vectorstoreName, hash)
    ensures |DescriptionPrefix| <= |t.description| && t.description[|DescriptionPrefix|..] == vectorstoreName
    ensures t.argName == QueryArg
  {
    var name := CappedToolName(vectorstoreName, hash);
    var description := ToolDescription(vectorstoreName);
    Tool(name, description, QueryArg)
  }

  /** Both factories describe a knowledge base identically. */
  lemma NaiveToolMatchesCreateTool(name: string, hash: string -> int)
    ensures GetNaiveRagTool(name, hash) == CreateTool(name, hash)
  {
  }
}

/** `core/retriever.py`: where a knowledge base's vector store lives, how its
    retriever is configured, and the retrieval tool built over it: its name,
    its description and the payload its function returns. The similarity
    search itself is outside the model: the tool's function is given the
    ranked documents the retriever returned. */
module Retriever {
  import opened Decimal
  import opened Sanitize

  /** A retrieved document: `page_content` and `metadata`. */
  datatype Doc = Doc(pageContent: string, metadata: map<string, string>)

  /** The arguments `create_retriever` hands to Chroma and `as_retriever`. */
  datatype SearchConfig = SearchConfig(
    collectionName: string,
    persistDirectory: string,
    searchType: string,
    k: nat,
    scoreThreshold: real)

  /** A `StructuredTool` as the model sees it: name, description and the
      single string argument of its schema. */
  datatype Tool = Tool(name: string, description: string, argName: string)

  const ToolSuffix: string := "_knowledge_base_tool"
  const DescriptionPrefix: string := "search and return information about "
  const QueryArg: string := "query"
  const SearchType: string := "similarity_score_threshold"
  const TopK: nat := 3
  const ScoreThreshold: real := 0.15
  /** OpenAI's limit on the length of a tool (function) name. */
  const OpenAiNameLimit: nat := 64
  /** "已知内容 ", the label before each payload index. */
  const PayloadLabel: string := "\U{5df2}\U{77e5}\U{5185}\U{5bb9} "

  // ----- Paths -----

  /** One step of POSIX `os.path.join`: an absolute component replaces what
      came before; otherwise a `/` is inserted unless the path is empty or
      already ends with one. */
  function JoinStep(path: string, b: string): string {
    if |b| > 0 && b[0] == '/' then b
    else if path == [] || path[|path| - 1] == '/' then path + b
    else path + "/" + b
  }

  function PosixJoin(path: string, parts: seq<string>): string
    decreases |parts|
  {
    if parts == [] then path else PosixJoin(JoinStep(path, parts[0]), parts[1..])
  }

  lemma PosixJoinThree(path: string, a: string, b: string, c: string)
    ensures PosixJoin(path, [a, b, c]) == JoinStep(JoinStep(JoinStep(path, a), b), c)
  {
    var p1, p2, p3 := JoinStep(path, a), JoinStep(JoinStep(path, a), b), JoinStep(JoinStep(JoinStep(path, a), b), c);
    assert [a, b, c][1..] == [b, c];
    assert [b, c][1..] == [c];
    assert [c][1..] == [];
    assert PosixJoin(path, [a, b, c]) == PosixJoin(p1, [b, c]);
    assert PosixJoin(p1, [b, c]) == PosixJoin(p2, [c]);
    assert PosixJoin(p2, [c]) == PosixJoin(p3, []);
  }

  /** `_kb_vectorstore_path`: `<repo>/kb/<kb_name>/vectorstore`, built from
      the raw name; `repoRoot` stands for the directory two levels above
      `core/retriever.py`. */
  function KbVectorstorePath(repoRoot: string, kbName: string): string {
    PosixJoin(repoRoot, ["kb", kbName, "vectorstore"])
  }

  /** For an ordinary name the store sits at `<repo>/kb/<name>/vectorstore`,
      the raw name appearing verbatim. */
  lemma VectorstorePathOfPlainName(repoRoot: string, kbName: string)
    requires repoRoot != [] && repoRoot[|repoRoot| - 1] != '/'
    requires kbName != [] && kbName[0] != '/' && kbName[|kbName| - 1] != '/'
    ensures KbVectorstorePath(repoRoot, kbName) == repoRoot + "/" + "kb" + "/" + kbName + "/" + "vectorstore"
  {
    var p1 := JoinStep(repoRoot, "kb");
    assert p1 == repoRoot + "/" + "kb";
    assert p1[|p1| - 1] == 'b';
    var p2 := JoinStep(p1, kbName);
    assert p2 == p1 + "/" + kbName;
    assert p2[|p2| - 1] == kbName[|kbName| - 1];
    PosixJoinThree(repoRoot, "kb", kbName, "vectorstore");
  }

  /** Because the name is not sanitized, an absolute name such as `/tmp/x`
      discards the repository prefix: the store lands at `<name>/vectorstore`. */
  lemma VectorstorePathOfAbsoluteName(repoRoot: string, kbName: string)
    requires kbName != [] && kbName[0] == '/' && kbName[|kbName| - 1] != '/'
    ensures KbVectorstorePath(repoRoot, kbName) == kbName + "/vectorstore"
  {
    var p2 := JoinStep(JoinStep(repoRoot, "kb"), kbName);
    assert p2 == kbName;
    PosixJoinThree(repoRoot, "kb", kbName, "vectorstore");
  }

  // ----- Retriever configuration -----

  /** `create_retriever`: the collection is named by the sanitized name, the
      store is persisted under the raw name, and the search returns at most
      three documents with relevance at least 0.15. The collection name is
      the corrected `CorrectedChromaCollectionName`, which differs from the
      source's only for cleaned names longer than 512 characters. */
  function CreateRetriever(repoRoot: string, kbName: string, hash: string -> int): (c: SearchConfig)
    ensures IsCollectionName(c.collectionName)
    ensures c.collectionName == CorrectedChromaCollectionName(kbName, hash)
    ensures |ChromaCleaned(kbName)| <= ChromaMaxLength ==> c.collectionName == ToChromaCollectionName(kbName, hash)
    ensures c.persistDirectory == KbVectorstorePath(repoRoot, kbName)
    ensures c.searchType == SearchType && c.k == 3 && c.scoreThreshold == 0.15
  {
    var collection := CorrectedChromaCollectionName(kbName, hash);
    var c := SearchConfig(collection, KbVectorstorePath(repoRoot, kbName), SearchType, TopK, ScoreThreshold);
    if |ChromaCleaned(kbName)| <= ChromaMaxLength then CorrectedChromaAgreesWhenUncut(kbName, hash); c else c
  }

  // ----- Tool name and description -----

  lemma SuffixFacts()
    ensures |ToolSuffix| == 20 && AllIn(ToolSuffix, ToolChars)
  {
  }

  /** `f"{to_openai_tool_name(kb_name)}_knowledge_base_tool"`. */
  function ToolName(kbName: string, hash: string -> int): (r: string)
    ensures AllIn(r, ToolChars)
    ensures MinLength + |ToolSuffix| <= |r| <= ToolMaxLength + |ToolSuffix|
    ensures r[|r| - |ToolSuffix|..] == ToolSuffix
  {
    var safe := ToOpenaiToolName(kbName, hash);
    SuffixFacts();
    AllInConcat(safe, ToolSuffix, ToolChars);
    assert (safe + ToolSuffix)[|safe|..] == ToolSuffix;
    safe + ToolSuffix
  }

  /** As written, the suffix is appended after the 64-character cut, so a
      long name gives a tool name beyond OpenAI's 64-character limit: 64
      letters `a` give 84 characters. */
  lemma ToolNameExceedsLimit(hash: string -> int)
    ensures var name := seq(64, _ => 'a'); |ToolName(name, hash)| == 84
  {
    var name := seq(64, _ => 'a');
    assert AllIn(name, ToolChars);
    SubRunsOfClassString(name, ToolChars, '_');
    ToolLongName(name, hash);
  }

  /** The tool name with the cut moved so that the suffix fits: the
      sanitized name is cut at 64 - 20 characters before the suffix. */
  function CappedToolName(kbName: string, hash: string -> int): (r: string)
    ensures AllIn(r, ToolChars)
    ensures MinLength + |ToolSuffix| <= |r| <= OpenAiNameLimit
    ensures r[|r| - |ToolSuffix|..] == ToolSuffix
    ensures |ToolName(kbName, hash)| <= OpenAiNameLimit ==> r == ToolName(kbName, hash)
  {
    SuffixFacts();
    var safe := Prefix(ToOpenaiToolName(kbName, hash), OpenAiNameLimit - |ToolSuffix|);
    assert AllIn(safe, ToolChars);
    AllInConcat(safe, ToolSuffix, ToolChars);
    assert (safe + ToolSuffix)[|safe|..] == ToolSuffix;
    safe + ToolSuffix
  }

  /** `f"search and return information about {kb_name}"`: the raw name
      closes the description. */
  function ToolDescription(kbName: string): (d: string)
    ensures |d| == |DescriptionPrefix| + |kbName|
    ensures d[..|DescriptionPrefix|] == DescriptionPrefix && d[|DescriptionPrefix|..] == kbName
  {
    DescriptionPrefix + kbName
  }

  /** Different knowledge bases get different descriptions, so a model bound
      to several tools can tell them apart. */
  lemma DescriptionsDistinguishNames(a: string, b: string)
    requires ToolDescription(a) == ToolDescription(b)
    ensures a == b
  {
    assert a == ToolDescription(a)[|DescriptionPrefix|..];
  }

  /** `create_tool`: the descriptor returned by `StructuredTool(...)`. Its
      name is the corrected `CappedToolName`, which differs from the
      source's only where the source's exceeds 64 characters. */
  function CreateTool(kbName: string, hash: string -> int): (t: Tool)
    ensures AllIn(t.name, ToolChars) && MinLength + |ToolSuffix| <= |t.name| <= OpenAiNameLimit
    ensures |ToolSuffix| <= |t.name| && t.name[|t.name| - |ToolSuffix|..] == ToolSuffix
    ensures |ToolName(kbName, hash)| <= OpenAiNameLimit ==> t.name == ToolName(kbName, hash)
    ensures |DescriptionPrefix| <= |t.description| && t.description[|DescriptionPrefix|..] == kbName
    ensures t.argName == QueryArg
  {
    var name := CappedToolName(kbName, hash);
    var description := ToolDescription(kbName);
    Tool(name, description, QueryArg)
  }

  // ----- Payload -----

  /** `f"已知内容 {i + 1}"`. */
  function PayloadKey(i: nat): string {
    PayloadLabel + NatToDecimal(i + 1)
  }

  /** Different positions get different labels. */
  lemma PayloadKeyInjective(i: nat, j: nat)
    requires PayloadKey(i) == PayloadKey(j)
    ensures i == j
  {
    assert NatToDecimal(i + 1) == PayloadKey(i)[|PayloadLabel|..];
    assert NatToDecimal(j + 1) == PayloadKey(j)[|PayloadLabel|..];
    DecimalInjective(i + 1, j + 1);
  }

  /** The comprehension `{f"已知内容 {i + 1}": v for i, v in enumerate(...)}`,
      as its ordered list of insertions. */
  function Payload(values: seq<string>): (p: seq<(string, string)>)
    ensures |p| == |values|
    ensures forall i :: 0 <= i < |p| ==> p[i] == (PayloadKey(i), values[i])
  {
    seq(|values|, i requires 0 <= i < |values| => (PayloadKey(i), values[i]))
  }

  /** The Python dict those insertions build: a later key overwrites. */
  function AsDict(pairs: seq<(string, string)>): map<string, string>
    decreases |pairs|
  {
    if pairs == [] then map[]
    else AsDict(pairs[..|pairs| - 1])[pairs[|pairs| - 1].0 := pairs[|pairs| - 1].1]
  }

  /** The payload holds exactly one entry per document: its keys are the
      labels 1 to n, pairwise distinct, so no insertion is overwritten, and
      each label maps to its own document's text. */
  lemma {:induction false} PayloadDict(values: seq<string>)
    ensures var d := AsDict(Payload(values));
      |d| == |values| &&
      (forall i :: 0 <= i < |values| ==> PayloadKey(i) in d && d[PayloadKey(i)] == values[i]) &&
      (forall k :: k in d ==> exists i :: 0 <= i < |values| && k == PayloadKey(i))
    decreases |values|
  {
    if values != [] {
      var n := |values| - 1;
      PayloadDict(values[..n]);
      AsDictOfPayloadSnoc(values);
      SplitLast(values);
      PayloadDictExtend(AsDict(Payload(values[..n])), values[..n], values[n]);
    }
  }

  lemma SplitLast(values: seq<string>)
    requires values != []
    ensures values == values[..|values| - 1] + [values[|values| - 1]]
  {
  }

  /** The last insertion of the payload comes last. */
  lemma AsDictOfPayloadSnoc(values: seq<string>)
    requires values != []
    ensures var n := |values| - 1;
      AsDict(Payload(values)) == AsDict(Payload(values[..n]))[PayloadKey(n) := values[n]]
  {
    var n := |values| - 1;
    assert Payload(values)[..n] == Payload(values[..n]);
  }

  /** Inserting the label after `1..n` into the dictionary of the first `n`
      values gives the dictionary of `n + 1` values. */
  lemma PayloadDictExtend(d: map<string, string>, values: seq<string>, v: string)
    requires |d| == |values|
    requires forall i :: 0 <= i < |values| ==> PayloadKey(i) in d && d[PayloadKey(i)] == values[i]
    requires forall k :: k in d ==> exists i :: 0 <= i < |values| && k == PayloadKey(i)
    ensures var d2, vs := d[PayloadKey(|values|) := v], values + [v];
      |d2| == |vs| &&
      (forall i :: 0 <= i < |vs| ==> PayloadKey(i) in d2 && d2[PayloadKey(i)] == vs[i]) &&
      (forall k :: k in d2 ==> exists i :: 0 <= i < |vs| && k == PayloadKey(i))
  {
    var n := |values|;
    FreshPayloadKey(d, n);
    var d2, vs := d[PayloadKey(n) := v], values + [v];
    forall i | 0 <= i < |vs| ensures PayloadKey(i) in d2 && d2[PayloadKey(i)] == vs[i] {
      if i < n {
        if PayloadKey(i) == PayloadKey(n) {
          PayloadKeyInjective(i, n);
        }
      }
    }
    forall k | k in d2 ensures exists i :: 0 <= i < |vs| && k == PayloadKey(i) {
      if k == PayloadKey(n) {
        assert 0 <= n < |vs|;
      }
    }
  }

  /** The next label is not yet a key of a dictionary holding the labels
      below it. */
  lemma FreshPayloadKey(d: map<string, string>, n: nat)
    requires forall k :: k in d ==> exists i :: 0 <= i < n && k == PayloadKey(i)
    ensures PayloadKey(n) !in d
  {
    if PayloadKey(n) in d {
      var i :| 0 <= i < n && PayloadKey(n) == PayloadKey(i);
      PayloadKeyInjective(i, n);
    }
  }

  /** `_kb_func`: the payload for the documents `retriever.invoke(query)`
      returned, in retrieval order. */
  function KbPayload(docs: seq<Doc>): (p: seq<(string, string)>)
    ensures |p| == |docs|
    ensures forall i :: 0 <= i < |docs| ==> p[i].0 == PayloadKey(i)
    ensures forall i :: 0 <= i < |docs| ==> PayloadKey(i) in AsDict(p) && AsDict(p)[PayloadKey(i)] == docs[i].pageContent
    ensures docs == [] <==> AsDict(p) == map[]
  {
    var values := seq(|docs|, i requires 0 <= i < |docs| => docs[i].pageContent);
    PayloadDict(values);
    Payload(values)
  }
}

# Knowledge-base core of a retrieval-augmented chat assistant, in Dafny

The assistant keeps one vector store per knowledge base and gives the chat
model one retrieval tool per knowledge base. This project models the parts
of that core that decide names and state:

- **Identifier sanitizers** (`app_utils/helpers.py`). Any user-supplied
  knowledge-base name, Unicode included, becomes a Chroma collection name
  and an OpenAI tool name. Each regular-expression step is its own function
  over `seq<char>` (module `Sanitize`). Python's randomised `hash` is a
  parameter of the model. Decimal rendering (`str(n)`) is in module
  `Decimal`.
- **Knowledge-base root** (`app_utils/helpers.py`). `get_kb_names` and
  `clear_all_kb` with its retry helper `_force_remove_dir` are modelled in
  module `KbStore`.
  - A class `FileSystem` holds the root's existence and a map from child
    names to files or directories. Its methods change that state in place.
  - Whether a removal attempt raises is decided by an injected oracle
    `faults`, so every property holds for every pattern of failures.
  - Each method is proved equal to a pure specification (`PurgeState`,
    `PurgeCount`, `ForceRemove`). The purge properties are lemmas about
    those functions.
- **Retriever and tool factories** (`core/retriever.py`,
  `tools/naive_rag_tool.py`). Modules `Retriever` and `NaiveRagTool` model:
  - the vector-store path (POSIX `os.path.join`);
  - the retriever configuration: collection, directory, search type,
    `k = 3`, threshold 0.15;
  - the tool name and description;
  - the payload a tool returns for a ranked list of retrieved documents:
    labels `已知内容 1`, `已知内容 2`, … One variant passes the text
    through. The other first removes every `source + "\n\n"`, as
    `str.replace` does.

The character class on line 33 of `app_utils/helpers.py` has no `+`, so
unlike line 43 it replaces disallowed characters one for one rather than
collapsing each run into one separator. The model therefore uses `SubEach`
for Chroma and `SubRuns` for the tool name. For example,
`"Acme Corp 客服"` gives the tool id `Acme_Corp_`: the trailing underscore
is kept, because lines 44 and 45 can never match. It gives the collection
name `Acme-Corp`.

Two findings (below) are modelled both as written and corrected. The
corrected definitions are what `CreateRetriever`, `CreateTool`,
`NaiveSearchConfig` and `GetNaiveRagTool` use.

## Model

Functions that only compute a source expression have no row of their own;
the rows of the lemmas about them stand for them: `Retriever.KbVectorstorePath`
(`_kb_vectorstore_path`, core/retriever.py:14-18) through
`VectorstorePathOfPlainName` and `VectorstorePathOfAbsoluteName`,
`Retriever.PayloadKey` (the label of core/retriever.py:46) through
`PayloadKeyInjective`, `Sanitize.HashName` (the hash fallback of
app_utils/helpers.py:38 and 48) through `HashNameShape` and
`HashSuffixIsValid`, and `NaiveRagTool.SourceOf`
(`metadata.get("source", "")`) through `SourcePattern`.

| member | source | states |
|---|---|---|
| Decimal.NatToDecimal | app_utils/helpers.py:38 | `str(n)` of a natural is a non-empty digit string with no leading zero unless it is 0 |
| Decimal.DecimalRoundTrip | app_utils/helpers.py:38 | reading the rendered digits back gives the number |
| Decimal.DecimalInjective | core/retriever.py:46 | distinct numbers render differently |
| Decimal.DecimalLengthBound | app_utils/helpers.py:38 | a number below 10^k takes at most k digits |
| Decimal.HashDigitsLength | app_utils/helpers.py:38 | `abs(hash(name)) % 100000` renders as one to five digits |
| Sanitize.SubEach | app_utils/helpers.py:33 | one-for-one replacement: same length, class characters kept, every other character becomes `-` |
| Sanitize.StripLeading | app_utils/helpers.py:34 | the result is a suffix of the input, everything removed is outside the class, and a non-empty result starts inside it |
| Sanitize.StripTrailing | app_utils/helpers.py:35 | the result is a prefix of the input, everything removed is outside the class, and a non-empty result ends inside it |
| Sanitize.SubRuns | app_utils/helpers.py:43 | never longer than the input, only class characters or `_`, and empty exactly when the input is |
| Sanitize.Keep | app_utils/helpers.py:37 | the residue lies in the class, is no longer than the input, and is the input when every character is in the class |
| Sanitize.Prefix | app_utils/helpers.py:39 | Python's `s[:n]`: a prefix of length `min(|s|, n)` |
| Sanitize.ToChromaCollectionName | app_utils/helpers.py:32-39 | for every name: 3 to 512 characters, all in `[a-zA-Z0-9._-]`, the first alphanumeric |
| Sanitize.ToOpenaiToolName | app_utils/helpers.py:42-49 | for every name: 3 to 64 characters, all in `[a-zA-Z0-9_]` |
| Sanitize.HashSuffixIsValid | app_utils/helpers.py:38 | the hash fallback has 4 to 8 characters in the target alphabet and begins and ends alphanumeric |
| Sanitize.HashNameShape | app_utils/helpers.py:38 | the hash fallback is the three-character prefix followed by digits only |
| Sanitize.ChromaCleanedIsValid | app_utils/helpers.py:33-35 | after lines 33 to 35 every character is allowed and a non-empty string begins and ends alphanumeric |
| Sanitize.AlnumsSurviveChromaCleaning | app_utils/helpers.py:33-35 | cleaning keeps every ASCII alphanumeric of the name, in order |
| Sanitize.KeepSubEachChroma | app_utils/helpers.py:33 | the replacement keeps the alphanumeric residue unchanged |
| Sanitize.KeepStripLeading | app_utils/helpers.py:34 | stripping keeps every class character |
| Sanitize.KeepStripTrailing | app_utils/helpers.py:35 | stripping keeps every class character |
| Sanitize.KeepConcat | app_utils/helpers.py:37 | the residue of a concatenation is the concatenation of the residues |
| Sanitize.ChromaResidueFallbackUnreachable | app_utils/helpers.py:36-38 | a cleaned name shorter than 3 has a residue shorter than 3, so the residue branch never applies |
| Sanitize.ChromaShortName | app_utils/helpers.py:36-39 | a short cleaned name always gives `kb-` followed by the hash digits |
| Sanitize.ChromaLongName | app_utils/helpers.py:36-39 | otherwise the result is the cleaned name cut at 512, and equals it when it fits |
| Sanitize.ChromaLastCharIsAlnum | app_utils/helpers.py:34-39 | the last character is alphanumeric whenever the cleaned name fits in 512 characters |
| Sanitize.ChromaCutCanEndInHyphen | app_utils/helpers.py:39 | as written, 511 letters `a` followed by `-b` give a 512-character name ending in `-` |
| Sanitize.CorrectedChromaCollectionName | app_utils/helpers.py:32-39 | corrected name: 3 to 512 allowed characters, first and last alphanumeric, for every name |
| Sanitize.CorrectedChromaAgreesWhenUncut | app_utils/helpers.py:39 | the correction agrees with the code whenever the 512 cut does not shorten |
| Sanitize.StripsOfClassString | app_utils/helpers.py:44-45 | a string inside the class is left alone by both strips |
| Sanitize.ToolStripsAreNoOps | app_utils/helpers.py:43-45 | lines 44 and 45 never remove anything after line 43, so leading and trailing `_` survive |
| Sanitize.StripLeadingConcat | app_utils/helpers.py:34 | stripping a concatenation strips into the second part only when the first is all stripped |
| Sanitize.SubRunsOfClassString | app_utils/helpers.py:43 | a name already inside `[a-zA-Z0-9_]` passes line 43 unchanged |
| Sanitize.SubRunsOfRun | app_utils/helpers.py:43 | a whole run of disallowed characters becomes exactly one `_` |
| Sanitize.SubRunsConcat | app_utils/helpers.py:43 | line 43 works piece by piece at any cut that does not split a run |
| Sanitize.KeepNoLongerThanSubRuns | app_utils/helpers.py:43-47 | the residue is never longer than the run-replaced name |
| Sanitize.ToolResidueFallbackUnreachable | app_utils/helpers.py:46-48 | a cleaned tool name shorter than 3 has a residue shorter than 3 |
| Sanitize.ToolShortName | app_utils/helpers.py:46-49 | a short cleaned name always gives `kb_` followed by one to five digits |
| Sanitize.ToolLongName | app_utils/helpers.py:43-49 | otherwise the id is the run-replaced name cut at 64; a name opening with `_` or a disallowed character yields an id opening with `_` |
| KbStore.FirstRemoval | app_utils/helpers.py:67-92 | the first successful round at or after a start: within bounds, no earlier round succeeds, and that round does |
| KbStore.ForceRemoveRoundsBound | app_utils/helpers.py:67-93 | `_force_remove_dir` runs one to five rounds, and fewer than five only when the path is gone |
| KbStore.FirstRoundRemoves | app_utils/helpers.py:67-69 | without failures the first `rmtree` removes the directory |
| KbStore.PurgeCountBound | app_utils/helpers.py:95-110 | the count never exceeds the number of child directories |
| KbStore.CountedAreGone | app_utils/helpers.py:99-107 | a directory is counted exactly when it is gone after its turn, and a file is never counted |
| KbStore.PurgeKeepsRoot | app_utils/helpers.py:109 | the root exists after a purge, whatever failed |
| KbStore.PurgeMissingRoot | app_utils/helpers.py:96-110 | a missing root counts 0 and is created empty |
| KbStore.PurgeWithoutFaults | app_utils/helpers.py:96-110 | with no failures every child directory is counted and the root ends up empty |
| KbStore.PurgeIdempotent | app_utils/helpers.py:52-110 | after a purge without failures, a second purge counts 0 and again leaves an empty root |
| KbStore.PurgeIncompleteIsVisible | app_utils/helpers.py:97-108 | if the root could not be removed, every directory still listed is an uncounted one, listed exactly when no failed attempt on the root deleted it, so count plus directories still listed is at most the original number |
| KbStore.UncountedChildCanVanish | app_utils/helpers.py:69-84 | a child that fails all its own rounds can be deleted by the root's failed removal, so count plus directories still listed can fall short of the original number |
| KbStore.LeftoverDirs | app_utils/helpers.py:97-107 | the child directories left by the loop are those whose removal failed |
| KbStore.PendingStep | app_utils/helpers.py:97-107 | one turn of the loop removes its child from the tree unless the child survives |
| KbStore.FileSystem.PathExists | app_utils/helpers.py:91 | `os.path.exists` reports whether the path exists |
| KbStore.FileSystem.IsDirectory | app_utils/helpers.py:99 | `os.path.isdir` reports whether the path is a directory |
| KbStore.FileSystem.ListDir | app_utils/helpers.py:97 | `os.listdir` returns the root's children |
| KbStore.FileSystem.MakeRoot | app_utils/helpers.py:109 | `os.makedirs(..., exist_ok=True)`: the root exists and its children are untouched |
| KbStore.FileSystem.RmTree | app_utils/helpers.py:69 | one `rmtree` attempt removes an existing directory exactly when it does not fail; a failed attempt on the root leaves exactly the children its sweep did not delete |
| KbStore.FileSystem.RemoveFile | app_utils/helpers.py:104-107 | `os.remove` of a stray file, its failure swallowed |
| KbStore.FileSystem.ForceRemoveDir | app_utils/helpers.py:66-93 | the new tree is the directory removed iff some of the five rounds succeeds, otherwise (for the root) the children no failed attempt deleted; the number of rounds run is the first success plus one, or five, or one when the path is already missing |
| KbStore.FileSystem.GetKbNames | app_utils/helpers.py:21-29 | the root is created if missing, children are untouched, and the result lists exactly the child directories, each once |
| KbStore.FileSystem.VisitChild | app_utils/helpers.py:98-107 | one turn of the loop: the child is gone unless it survives, and it is reported as counted exactly when it is a removed directory |
| KbStore.FileSystem.PurgeChildren | app_utils/helpers.py:97-107 | the children left are the survivors, and the count is the number of directories removed |
| KbStore.FileSystem.ClearAllKb | app_utils/helpers.py:52-110 | the new tree is `PurgeState` and the result is `PurgeCount` of the old tree |
| KbStore.PurgeTwice | app_utils/helpers.py:52-110 | two purges, the first without failures, whether or not the root existed: the first counts every directory, the second returns 0, and the root is left existing and empty |
| Retriever.PosixJoinThree | core/retriever.py:18 | joining three components is three join steps |
| Retriever.VectorstorePathOfPlainName | core/retriever.py:18 | an ordinary name's store is at `<repo>/kb/<name>/vectorstore`, with the raw name |
| Retriever.VectorstorePathOfAbsoluteName | core/retriever.py:18 | an absolute name discards the repository prefix: the store lands at `<name>/vectorstore` |
| Retriever.CreateRetriever | core/retriever.py:21-38 | the collection name is the corrected sanitized name, a valid Chroma name, and equals `to_chroma_collection_name` whenever the cleaned name fits in 512 characters; the store is under the raw name; the search is similarity with threshold 0.15 and k = 3 |
| Retriever.ToolName | core/retriever.py:48-50 | as written: the tool name is in `[a-zA-Z0-9_]`, ends with `_knowledge_base_tool`, and is 23 to 84 characters long |
| Retriever.ToolNameExceedsLimit | core/retriever.py:48-50 | as written, 64 letters `a` give an 84-character tool name |
| Retriever.CappedToolName | core/retriever.py:48-50 | corrected: at most 64 characters, still ending with the suffix, and equal to the as-written name whenever that fits |
| Retriever.ToolDescription | core/retriever.py:51 | the description is the fixed prefix followed by the raw name |
| Retriever.DescriptionsDistinguishNames | core/retriever.py:51 | different knowledge bases get different descriptions |
| Retriever.CreateTool | core/retriever.py:41-54 | a valid tool name of at most 64 characters ending with the suffix, a description ending with the raw name, and one `query` argument |
| Retriever.PayloadKeyInjective | core/retriever.py:46 | different positions get different labels |
| Retriever.Payload | core/retriever.py:46 | the i-th insertion is label i + 1 with the i-th value |
| Retriever.PayloadDict | core/retriever.py:46 | the dictionary has one entry per document, each label maps to its own document, and it has no other keys |
| Retriever.KbPayload | core/retriever.py:45-47 | one entry per retrieved document, labelled in retrieval order with the document's text; no documents give an empty payload |
| NaiveRagTool.RemoveAll | tools/naive_rag_tool.py:34 | `str.replace(pat, "")` never lengthens the text |
| NaiveRagTool.RemoveAllWithoutOccurrence | tools/naive_rag_tool.py:34 | text without the pattern is returned unchanged |
| NaiveRagTool.RemoveAllLeading | tools/naive_rag_tool.py:34 | a leading occurrence is removed and scanning resumes after it |
| NaiveRagTool.RemoveAllAfterPrefix | tools/naive_rag_tool.py:34 | the text before the first occurrence is kept, that occurrence is removed, and scanning resumes after it; with `RemoveAllWithoutOccurrence` this fixes the result on every text |
| NaiveRagTool.SourcePattern | tools/naive_rag_tool.py:34 | the removed pattern ends with a blank line, and is `"\n\n"` alone when the document has no source |
| NaiveRagTool.NaiveContent | tools/naive_rag_tool.py:34 | a payload value is never longer than the document's text |
| NaiveRagTool.PassageWithoutHeaderIsKept | tools/naive_rag_tool.py:34 | a passage without the header is passed through unchanged |
| NaiveRagTool.HeaderIsStripped | tools/naive_rag_tool.py:34 | a passage stored as `source + "\n\n" + body` comes back as `body` when the body does not repeat the header |
| NaiveRagTool.NaivePayload | tools/naive_rag_tool.py:33-36 | one entry per document, labelled in order, each the header-stripped text and no longer than it |
| NaiveRagTool.NaiveSearchConfig | tools/naive_rag_tool.py:21-31 | the collection is the corrected sanitized name, valid for Chroma and equal to `to_chroma_collection_name` whenever the cleaned name fits in 512 characters; the store is `kb/<name>/vectorstore` under the repository root; similarity search with k = 3 and threshold 0.15 |
| NaiveRagTool.NaiveSearchMatchesRetriever | tools/naive_rag_tool.py:21-31 | the per-query search is configured exactly as `create_retriever` configures it |
| NaiveRagTool.GetNaiveRagTool | tools/naive_rag_tool.py:39-45 | a valid tool name of at most 64 characters ending with the suffix, a description ending with the raw name, and one `query` argument |
| NaiveRagTool.NaiveToolMatchesCreateTool | tools/naive_rag_tool.py:39-45 | both factories describe a knowledge base identically |

## Left out

- The directory of the knowledge-base root (`os.path.dirname(__file__)`, `abspath`) and the repository root are abstract: `repoRoot` is a parameter, and paths follow POSIX `os.path.join` only.
- Python's `hash` is salted per process. It is a parameter `hash: string -> int`.
- The ChromaDB cache clearing (`clear_system_cache`, helpers.py lines 60 to 64) is a best-effort foreign call whose failure is swallowed. It is not modelled.
- Inside `_force_remove_dir`, the walk, the `chmod` calls and partial deletions of a subtree are one oracle decision per attempt. For the root, each failed attempt also decides, child by child, which children it deleted (`Sweep`); the order in which `rmtree` deletes and the point where it stops are not modelled. The contents of a child directory are not modelled, and neither is the 0.2 second sleep.
- Order: `os.listdir` is a set in the model, so the order of the names `get_kb_names` returns, and the order in which children are visited, are not modelled.
- A failure of `os.mkdir` or `os.makedirs` would raise to the caller. It is not modelled: the root is always created.
- `os.listdir` of the root (helpers.py lines 29 and 97) is outside every `try`, so it raises to the caller when the root is a plain file or cannot be read. In the model an existing root is always a listable directory, so `GetKbNames` and `ClearAllKb` always return.
- Concurrency between purges and tool calls is not modelled.
- The similarity search, the embeddings, the settings (`get_settings`, `get_embedding_model`) and the vector store itself are foreign code. A tool's function is given the ranked documents the retriever returned.
- `json.dumps(payload, ensure_ascii=False)` is not modelled. The payload is the ordered list of insertions and the dictionary built from them.
- Document metadata is a map from strings to strings. Non-string sources are not modelled.
- Windows path joining is not modelled.
- `get_img_base64`, the chat workflow, the LLM client, the configuration loader and the user interface are outside this core.
- CreateTool: names the tool with the corrected `CappedToolName`, not the source's 84-character-capable name. The as-written name is `ToolName` (Findings, row 1).
- GetNaiveRagTool: names the tool with `CappedToolName`, for the same reason.
- CreateRetriever: names the collection with the corrected `CorrectedChromaCollectionName`, not `to_chroma_collection_name` as written. The two agree whenever the cleaned name has at most 512 characters. The as-written function is `ToChromaCollectionName` (Findings, row 2).
- NaiveSearchConfig: names the collection with `CorrectedChromaCollectionName`, for the same reason.
- Symbolic links are not modelled. `os.path.isdir` follows a link to a directory and `shutil.rmtree` refuses one, so a linked child would take the failure path, and the `chmod` and removal calls of the walk at helpers.py lines 72 to 86 could act on the link's target. In the model every child is a plain file or directory.

## Findings

| source | as written | input that shows it | evidently intended | confidence | as-written member | corrected member |
|---|---|---|---|---|---|---|
| core/retriever.py:48-50 | The `_knowledge_base_tool` suffix (20 characters) is appended after `to_openai_tool_name` has already cut at 64, so a tool name can reach 84 characters. The same happens in tools/naive_rag_tool.py:39-41. | a knowledge base named with 64 letters `a` | a tool name within OpenAI's 64-character limit | not executed | Retriever.ToolNameExceedsLimit | Retriever.CappedToolName |
| app_utils/helpers.py:39 | The `[:512]` cut comes after the trailing strip, so the collection name can end in `-`, `.` or `_`, which Chroma rejects. | 511 letters `a` followed by `-b` | a collection name that always ends with an alphanumeric | not executed | Sanitize.ChromaCutCanEndInHyphen | Sanitize.CorrectedChromaCollectionName |

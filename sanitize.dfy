/** The two identifier sanitizers of `app_utils/helpers.py`: a knowledge-base
    name (any Unicode text) becomes a Chroma collection name or an OpenAI tool
    name. Each regular-expression substitution of the source is one function
    here; only ASCII class membership of a character matters. Python's
    process-randomised `hash` is a parameter. */
module Sanitize {
  import opened Decimal

  const ChromaMaxLength: nat := 512
  const ToolMaxLength: nat := 64
  const MinLength: nat := 3
  const HashModulus: nat := 100000

  predicate IsAsciiAlnum(c: char) {
    'a' <= c <= 'z' || 'A' <= c <= 'Z' || '0' <= c <= '9'
  }

  /** The character classes the source's regular expressions name. */
  datatype CharClass =
    | AsciiAlnum   // [a-zA-Z0-9]
    | ChromaChars  // [a-zA-Z0-9._-]
    | ToolChars    // [a-zA-Z0-9_]

  predicate InClass(c: char, cls: CharClass) {
    match cls
    case AsciiAlnum => IsAsciiAlnum(c)
    case ChromaChars => IsAsciiAlnum(c) || c == '.' || c == '_' || c == '-'
    case ToolChars => IsAsciiAlnum(c) || c == '_'
  }

  predicate AllIn(s: string, cls: CharClass) {
    forall i :: 0 <= i < |s| ==> InClass(s[i], cls)
  }

  lemma AllInConcat(a: string, b: string, cls: CharClass)
    requires AllIn(a, cls) && AllIn(b, cls)
    ensures AllIn(a + b, cls)
  {
    forall i | 0 <= i < |a + b| ensures InClass((a + b)[i], cls) {
      if i >= |a| {
        assert (a + b)[i] == b[i - |a|];
      }
    }
  }

  /** `re.sub("[^cls]", [rep], s)`: every character outside the class is
      replaced, one for one, by `rep`. */
  function SubEach(s: string, cls: CharClass, rep: char): (r: string)
    ensures |r| == |s|
    ensures forall i :: 0 <= i < |s| ==> r[i] == if InClass(s[i], cls) then s[i] else rep
  {
    if s == [] then [] else [if InClass(s[0], cls) then s[0] else rep] + SubEach(s[1..], cls, rep)
  }

  /** `re.sub("^[^cls]+", "", s)`: the longest prefix outside the class is
      dropped. */
  function StripLeading(s: string, cls: CharClass): (r: string)
    ensures |r| <= |s| && r == s[|s| - |r|..]
    ensures forall i :: 0 <= i < |s| - |r| ==> !InClass(s[i], cls)
    ensures r != [] ==> InClass(r[0], cls)
    ensures s != [] && !InClass(s[0], cls) ==> |r| < |s|
  {
    if s != [] && !InClass(s[0], cls) then StripLeading(s[1..], cls) else s
  }

  /** `re.sub("[^cls]+$", "", s)`: the longest suffix outside the class is
      dropped. (Python's `$` also matches before a final newline; a newline
      is outside every class here, so that makes no difference.) */
  function StripTrailing(s: string, cls: CharClass): (r: string)
    ensures |r| <= |s| && r == s[..|r|]
    ensures forall i :: |r| <= i < |s| ==> !InClass(s[i], cls)
    ensures r != [] ==> InClass(r[|r| - 1], cls)
  {
    if s != [] && !InClass(s[|s| - 1], cls) then StripTrailing(s[..|s| - 1], cls) else s
  }

  /** `re.sub("[^cls]+", [rep], s)`: every maximal run of characters outside
      the class becomes a single `rep`. The regex engine scans left to right,
      consuming a whole run at each match. */
  function SubRuns(s: string, cls: CharClass, rep: char): (r: string)
    ensures |r| <= |s|
    ensures forall i :: 0 <= i < |r| ==> InClass(r[i], cls) || r[i] == rep
    ensures r == [] <==> s == []
    decreases |s|
  {
    if s == [] then []
    else if InClass(s[0], cls) then [s[0]] + SubRuns(s[1..], cls, rep)
    else [rep] + SubRuns(StripLeading(s, cls), cls, rep)
  }

  /** `re.sub("[^cls]", "", s)`: only the characters of the class are kept. */
  function Keep(s: string, cls: CharClass): (r: string)
    ensures |r| <= |s| && AllIn(r, cls)
    ensures AllIn(s, cls) ==> r == s
  {
    if s == [] then [] else (if InClass(s[0], cls) then [s[0]] else []) + Keep(s[1..], cls)
  }

  /** Python's slice `s[:n]`. */
  function Prefix(s: string, n: nat): (r: string)
    ensures |r| == if |s| <= n then |s| else n
    ensures r == s[..|r|]
  {
    if |s| <= n then s else s[..n]
  }

  function Abs(h: int): nat {
    if h < 0 then -h else h
  }

  /** `f"{prefix}{abs(hash(name)) % 100000}"`. */
  function HashName(prefix: string, name: string, hash: string -> int): string {
    prefix + NatToDecimal(Abs(hash(name)) % HashModulus)
  }

  /** The string `to_chroma_collection_name` tests against the minimum
      length (helpers.py, lines 33 to 35). */
  function ChromaCleaned(name: string): string {
    StripTrailing(StripLeading(SubEach(name, ChromaChars, '-'), AsciiAlnum), AsciiAlnum)
  }

  /** `to_chroma_collection_name`: a valid Chroma collection name, whatever
      the input. */
  function ToChromaCollectionName(name: string, hash: string -> int): (r: string)
    ensures MinLength <= |r| <= ChromaMaxLength
    ensures AllIn(r, ChromaChars)
    ensures IsAsciiAlnum(r[0])
  {
    var s := ChromaCleaned(name);
    ChromaCleanedIsValid(name);
    var t :=
      if |s| < MinLength then
        var base := Keep(name, AsciiAlnum);
        if |base| >= MinLength then AlnumIsChroma(base); base
        else HashSuffixIsValid("kb-", name, hash, ChromaChars); HashName("kb-", name, hash)
      else s;
    PrefixIsValid(t, ChromaMaxLength, ChromaChars);
    Prefix(t, ChromaMaxLength)
  }

  /** The string `to_openai_tool_name` tests against the minimum length
      (helpers.py, lines 43 to 45). */
  function ToolCleaned(name: string): string {
    StripTrailing(StripLeading(SubRuns(name, ToolChars, '_'), ToolChars), ToolChars)
  }

  /** `to_openai_tool_name`: a valid OpenAI tool name, whatever the input. */
  function ToOpenaiToolName(name: string, hash: string -> int): (r: string)
    ensures MinLength <= |r| <= ToolMaxLength
    ensures AllIn(r, ToolChars)
  {
    ToolStripsAreNoOps(name);
    var s := ToolCleaned(name);
    var t :=
      if |s| < MinLength then
        var base := Keep(name, ToolChars);
        if |base| >= MinLength then base
        else HashSuffixIsValid("kb_", name, hash, ToolChars); HashName("kb_", name, hash)
      else s;
    Prefix(t, ToolMaxLength)
  }

  /** The hash fallback is itself a valid identifier in both namespaces: the
      three-letter prefix plus one to five digits. */
  lemma HashSuffixIsValid(prefix: string, name: string, hash: string -> int, cls: CharClass)
    requires prefix == "kb-" || prefix == "kb_"
    requires cls == ChromaChars || (cls == ToolChars && prefix == "kb_")
    ensures 4 <= |HashName(prefix, name, hash)| <= 8
    ensures AllIn(HashName(prefix, name, hash), cls)
    ensures IsAsciiAlnum(HashName(prefix, name, hash)[0])
    ensures IsAsciiAlnum(HashName(prefix, name, hash)[|HashName(prefix, name, hash)| - 1])
  {
    var d := NatToDecimal(Abs(hash(name)) % HashModulus);
    HashDigitsLength(Abs(hash(name)) % HashModulus);
    var r := HashName(prefix, name, hash);
    assert r == prefix + d;
    forall i | 0 <= i < |r| ensures InClass(r[i], cls) {
      if i >= 3 {
        assert r[i] == d[i - 3];
        assert IsDigit(d[i - 3]);
      }
    }
    assert IsDigit(d[|d| - 1]);
  }

  lemma AllInSlice(s: string, i: nat, j: nat, cls: CharClass)
    requires AllIn(s, cls) && i <= j <= |s|
    ensures AllIn(s[i..j], cls)
  {
    forall k | 0 <= k < j - i ensures InClass(s[i..j][k], cls) {
      assert s[i..j][k] == s[i + k];
    }
  }

  lemma AlnumIsChroma(s: string)
    requires AllIn(s, AsciiAlnum)
    ensures AllIn(s, ChromaChars)
  {
  }

  lemma PrefixIsValid(t: string, n: nat, cls: CharClass)
    requires AllIn(t, cls)
    ensures AllIn(Prefix(t, n), cls)
    ensures t != [] && n > 0 ==> Prefix(t, n)[0] == t[0]
  {
    AllInSlice(t, 0, |Prefix(t, n)|, cls);
  }

  /** After lines 33 to 35 every character is in `[a-zA-Z0-9._-]` and both
      ends are alphanumeric. */
  lemma ChromaCleanedIsValid(name: string)
    ensures var s := ChromaCleaned(name);
      AllIn(s, ChromaChars) && (s != [] ==> IsAsciiAlnum(s[0]) && IsAsciiAlnum(s[|s| - 1]))
  {
    var s0 := SubEach(name, ChromaChars, '-');
    SubEachIsInClass(name, ChromaChars, '-');
    var s1 := StripLeading(s0, AsciiAlnum);
    StripsKeepClass(s0, ChromaChars, AsciiAlnum);
    var s2 := StripTrailing(s1, AsciiAlnum);
    StripsKeepClass(s1, ChromaChars, AsciiAlnum);
    FirstOfPrefix(s1, s2);
  }

  lemma SubEachIsInClass(s: string, cls: CharClass, rep: char)
    requires InClass(rep, cls)
    ensures AllIn(SubEach(s, cls, rep), cls)
  {
  }

  /** Both strips only shorten, so every remaining character was there. */
  lemma StripsKeepClass(s: string, cls: CharClass, stripped: CharClass)
    requires AllIn(s, cls)
    ensures AllIn(StripLeading(s, stripped), cls) && AllIn(StripTrailing(s, stripped), cls)
  {
    var l, t := StripLeading(s, stripped), StripTrailing(s, stripped);
    AllInSlice(s, |s| - |l|, |s|, cls);
    assert l == s[|s| - |l|..|s|];
    AllInSlice(s, 0, |t|, cls);
  }

  lemma FirstOfPrefix(s: string, t: string)
    requires t == StripTrailing(s, AsciiAlnum) && (s != [] ==> IsAsciiAlnum(s[0]))
    ensures t != [] ==> IsAsciiAlnum(t[0]) && IsAsciiAlnum(t[|t| - 1])
  {
    if t != [] {
      assert t[0] == s[0];
    }
  }

  /** Every character `StripLeading` or `StripTrailing` could remove is
      outside the class, so on a string inside the class both are no-ops. */
  lemma StripsOfClassString(s: string, cls: CharClass)
    requires AllIn(s, cls)
    ensures StripLeading(s, cls) == s && StripTrailing(s, cls) == s
  {
  }

  /** Lines 44 and 45 of helpers.py never remove anything: after line 43
      every character is in `[a-zA-Z0-9_]`, so leading and trailing
      underscores survive. */
  lemma ToolStripsAreNoOps(name: string)
    ensures ToolCleaned(name) == SubRuns(name, ToolChars, '_')
  {
    var s := SubRuns(name, ToolChars, '_');
    assert AllIn(s, ToolChars);
    StripsOfClassString(s, ToolChars);
  }

  // ----- Reference facts about the regular-expression steps -----

  lemma {:induction false} KeepConcat(a: string, b: string, cls: CharClass)
    ensures Keep(a + b, cls) == Keep(a, cls) + Keep(b, cls)
    decreases |a|
  {
    if a == [] {
      assert a + b == b;
    } else {
      var h := if InClass(a[0], cls) then [a[0]] else [];
      assert (a + b)[0] == a[0];
      assert (a + b)[1..] == a[1..] + b;
      assert Keep(a + b, cls) == h + Keep(a[1..] + b, cls);
      KeepConcat(a[1..], b, cls);
      ConcatAssoc(h, Keep(a[1..], cls), Keep(b, cls));
    }
  }

  /** Stripping characters outside `cls` keeps every character inside it. */
  lemma {:induction false} KeepStripLeading(s: string, cls: CharClass)
    ensures Keep(StripLeading(s, cls), cls) == Keep(s, cls)
    decreases |s|
  {
    if s != [] && !InClass(s[0], cls) {
      KeepStripLeading(s[1..], cls);
    }
  }

  lemma {:induction false} KeepStripTrailing(s: string, cls: CharClass)
    ensures Keep(StripTrailing(s, cls), cls) == Keep(s, cls)
    decreases |s|
  {
    if s != [] && !InClass(s[|s| - 1], cls) {
      var init := s[..|s| - 1];
      assert s == init + [s[|s| - 1]];
      KeepConcat(init, [s[|s| - 1]], cls);
      assert Keep([s[|s| - 1]], cls) == [];
      KeepStripTrailing(init, cls);
    }
  }

  /** Line 33 turns only non-alphanumerics into `-`, so it keeps the
      alphanumerics of `name`, in order. */
  lemma {:induction false} KeepSubEachChroma(name: string)
    ensures Keep(SubEach(name, ChromaChars, '-'), AsciiAlnum) == Keep(name, AsciiAlnum)
    decreases |name|
  {
    if name != [] {
      var r := SubEach(name, ChromaChars, '-');
      assert r[1..] == SubEach(name[1..], ChromaChars, '-');
      KeepSubEachChroma(name[1..]);
    }
  }

  /** Every ASCII alphanumeric of `name` survives lines 33 to 35, in order. */
  lemma AlnumsSurviveChromaCleaning(name: string)
    ensures Keep(ChromaCleaned(name), AsciiAlnum) == Keep(name, AsciiAlnum)
  {
    var s0 := SubEach(name, ChromaChars, '-');
    KeepSubEachChroma(name);
    KeepStripLeading(s0, AsciiAlnum);
    KeepStripTrailing(StripLeading(s0, AsciiAlnum), AsciiAlnum);
  }

  /** The alphanumeric-residue fallback of line 37 can never be taken: when
      the cleaned string is too short, so is the residue. */
  lemma ChromaResidueFallbackUnreachable(name: string)
    requires |ChromaCleaned(name)| < MinLength
    ensures |Keep(name, AsciiAlnum)| < MinLength
  {
    AlnumsSurviveChromaCleaning(name);
  }

  /** A short cleaned string always yields `kb-` and the hash digits. */
  lemma ChromaShortName(name: string, hash: string -> int)
    requires |ChromaCleaned(name)| < MinLength
    ensures ToChromaCollectionName(name, hash) == HashName("kb-", name, hash)
    ensures ToChromaCollectionName(name, hash)[..3] == "kb-"
    ensures AllDigits(ToChromaCollectionName(name, hash)[3..])
  {
    ChromaResidueFallbackUnreachable(name);
    HashNameShape("kb-", name, hash);
    assert ToChromaCollectionName(name, hash) == Prefix(HashName("kb-", name, hash), ChromaMaxLength);
  }

  /** The hash name is its prefix followed by one to five digits. */
  lemma HashNameShape(prefix: string, name: string, hash: string -> int)
    requires |prefix| == 3
    ensures 4 <= |HashName(prefix, name, hash)| <= 8
    ensures HashName(prefix, name, hash)[..3] == prefix
    ensures AllDigits(HashName(prefix, name, hash)[3..])
  {
    var r := HashName(prefix, name, hash);
    HashDigitsLength(Abs(hash(name)) % HashModulus);
    assert r[3..] == NatToDecimal(Abs(hash(name)) % HashModulus);
  }

  /** Otherwise the result is the cleaned string cut at 512 characters; it
      ends with an alphanumeric unless that cut shortened it. */
  lemma ChromaLongName(name: string, hash: string -> int)
    requires |ChromaCleaned(name)| >= MinLength
    ensures ToChromaCollectionName(name, hash) == Prefix(ChromaCleaned(name), ChromaMaxLength)
    ensures |ChromaCleaned(name)| <= ChromaMaxLength ==>
              ToChromaCollectionName(name, hash) == ChromaCleaned(name)
  {
  }

  /** The last character is alphanumeric whenever the cleaned string fits in
      512 characters (lines 34, 35, 38 and 39). */
  lemma ChromaLastCharIsAlnum(name: string, hash: string -> int)
    requires |ChromaCleaned(name)| <= ChromaMaxLength
    ensures var r := ToChromaCollectionName(name, hash); IsAsciiAlnum(r[|r| - 1])
  {
    if |ChromaCleaned(name)| < MinLength {
      ChromaShortName(name, hash);
      HashSuffixIsValid("kb-", name, hash, ChromaChars);
    } else {
      ChromaLongName(name, hash);
    }
  }

  /** The `[:512]` cut can leave a trailing `-`: 511 letters `a` followed
      by `-b` are already clean, and the cut keeps the `-` and drops the
      `b`. Chroma rejects such a name. */
  lemma ChromaCutCanEndInHyphen(hash: string -> int)
    ensures var r := ToChromaCollectionName(seq(511, _ => 'a') + "-b", hash);
      |r| == ChromaMaxLength && r[|r| - 1] == '-'
  {
    var name := seq(511, _ => 'a') + "-b";
    assert AllIn(name, ChromaChars);
    var s0 := SubEach(name, ChromaChars, '-');
    assert s0 == name;
    assert IsAsciiAlnum(name[0]) && IsAsciiAlnum(name[|name| - 1]);
    assert StripLeading(name, AsciiAlnum) == name;
    assert StripTrailing(name, AsciiAlnum) == name;
    assert ChromaCleaned(name) == name;
    ChromaLongName(name, hash);
    assert ToChromaCollectionName(name, hash) == name[..512];
    assert name[511] == '-';
  }

  /** What Chroma accepts as a collection name: 3 to 512 characters of
      `[a-zA-Z0-9._-]`, starting and ending with an alphanumeric. */
  predicate IsCollectionName(s: string) {
    MinLength <= |s| <= ChromaMaxLength && AllIn(s, ChromaChars) &&
    IsAsciiAlnum(s[0]) && IsAsciiAlnum(s[|s| - 1])
  }

  /** The collection name with the trailing strip repeated after the cut,
      and the hash name when that leaves fewer than three characters: it
      ends with an alphanumeric for every input. */
  function CorrectedChromaCollectionName(name: string, hash: string -> int): (r: string)
    ensures IsCollectionName(r)
  {
    TrimCut(ToChromaCollectionName(name, hash), name, hash)
  }

  function TrimCut(cut: string, name: string, hash: string -> int): (r: string)
    requires MinLength <= |cut| <= ChromaMaxLength && AllIn(cut, ChromaChars) && IsAsciiAlnum(cut[0])
    ensures IsCollectionName(r)
  {
    var t := StripTrailing(cut, AsciiAlnum);
    if |t| >= MinLength then
      TrimmedCutIsValid(cut);
      t
    else
      HashSuffixIsValid("kb-", name, hash, ChromaChars); HashName("kb-", name, hash)
  }

  lemma TrimmedCutIsValid(cut: string)
    requires cut != [] && AllIn(cut, ChromaChars) && IsAsciiAlnum(cut[0])
    ensures var t := StripTrailing(cut, AsciiAlnum);
      t != [] && |t| <= |cut| && AllIn(t, ChromaChars) && IsAsciiAlnum(t[0]) && IsAsciiAlnum(t[|t| - 1])
  {
    var t := StripTrailing(cut, AsciiAlnum);
    assert t == cut[..|t|];
    forall i | 0 <= i < |t| ensures InClass(t[i], ChromaChars) {
      assert t[i] == cut[i];
    }
  }

  /** The correction changes nothing where the cut does not shorten. */
  lemma CorrectedChromaAgreesWhenUncut(name: string, hash: string -> int)
    requires |ChromaCleaned(name)| <= ChromaMaxLength
    ensures CorrectedChromaCollectionName(name, hash) == ToChromaCollectionName(name, hash)
  {
    var cut := ToChromaCollectionName(name, hash);
    ChromaLastCharIsAlnum(name, hash);
    assert StripTrailing(cut, AsciiAlnum) == cut;
  }

  lemma {:induction false} StripLeadingConcat(a: string, b: string, cls: CharClass)
    ensures StripLeading(a + b, cls) ==
              if StripLeading(a, cls) != [] then StripLeading(a, cls) + b else StripLeading(b, cls)
    decreases |a|
  {
    if a != [] {
      assert (a + b)[0] == a[0];
      if !InClass(a[0], cls) {
        assert (a + b)[1..] == a[1..] + b;
        StripLeadingConcat(a[1..], b, cls);
      }
    } else {
      assert a + b == b;
    }
  }

  /** A string inside the class passes line 43 unchanged. */
  lemma {:induction false} SubRunsOfClassString(s: string, cls: CharClass, rep: char)
    requires AllIn(s, cls)
    ensures SubRuns(s, cls, rep) == s
    decreases |s|
  {
    if s != [] {
      SubRunsOfClassString(s[1..], cls, rep);
    }
  }

  /** A non-empty run outside the class becomes exactly one `rep`. */
  lemma SubRunsOfRun(d: string, cls: CharClass, rep: char)
    requires d != [] && forall i :: 0 <= i < |d| ==> !InClass(d[i], cls)
    ensures SubRuns(d, cls, rep) == [rep]
  {
    assert StripLeading(d, cls) == [];
  }

  /** Line 43 works piece by piece as long as the cut does not fall inside a
      run: with `SubRunsOfClassString` and `SubRunsOfRun`, this says each
      maximal run of disallowed characters becomes exactly one `rep`. */
  lemma {:induction false} SubRunsConcat(a: string, b: string, cls: CharClass, rep: char)
    requires a == [] || b == [] || InClass(a[|a| - 1], cls) || InClass(b[0], cls)
    ensures SubRuns(a + b, cls, rep) == SubRuns(a, cls, rep) + SubRuns(b, cls, rep)
    decreases |a|, 1
  {
    if a == [] {
      assert a + b == b;
    } else if b == [] {
      assert a + b == a;
    } else if InClass(a[0], cls) {
      SubRunsConcatClassHead(a, b, cls, rep);
    } else if StripLeading(a, cls) != [] {
      SubRunsConcatRunInside(a, b, cls, rep);
    } else {
      SubRunsConcatRunOnly(a, b, cls, rep);
    }
  }

  /** `SubRunsConcat` when `a` opens with a class character. */
  lemma {:induction false} SubRunsConcatClassHead(a: string, b: string, cls: CharClass, rep: char)
    requires a != [] && InClass(a[0], cls)
    requires InClass(a[|a| - 1], cls) || b == [] || InClass(b[0], cls)
    ensures SubRuns(a + b, cls, rep) == SubRuns(a, cls, rep) + SubRuns(b, cls, rep)
    decreases |a|, 0
  {
    assert (a + b)[0] == a[0];
    assert (a + b)[1..] == a[1..] + b;
    SubRunsConcat(a[1..], b, cls, rep);
    ConcatAssoc([a[0]], SubRuns(a[1..], cls, rep), SubRuns(b, cls, rep));
  }

  /** `SubRunsConcat` when `a` opens with a disallowed run that is followed,
      still inside `a`, by a class character. */
  lemma {:induction false} SubRunsConcatRunInside(a: string, b: string, cls: CharClass, rep: char)
    requires a != [] && !InClass(a[0], cls) && StripLeading(a, cls) != []
    requires InClass(a[|a| - 1], cls) || b == [] || InClass(b[0], cls)
    ensures SubRuns(a + b, cls, rep) == SubRuns(a, cls, rep) + SubRuns(b, cls, rep)
    decreases |a|, 0
  {
    var t := StripLeading(a, cls);
    var ab := a + b;
    assert ab[0] == a[0];
    StripLeadingConcat(a, b, cls);
    SubRunsAtRun(a, t, cls, rep);
    SubRunsAtRun(ab, t + b, cls, rep);
    LastOfSuffix(a, t);
    SubRunsConcat(t, b, cls, rep);
    ConcatAssoc([rep], SubRuns(t, cls, rep), SubRuns(b, cls, rep));
  }

  /** `SubRunsConcat` when all of `a` is one disallowed run. */
  lemma SubRunsConcatRunOnly(a: string, b: string, cls: CharClass, rep: char)
    requires a != [] && !InClass(a[0], cls) && StripLeading(a, cls) == []
    requires InClass(a[|a| - 1], cls) || b == [] || InClass(b[0], cls)
    ensures SubRuns(a + b, cls, rep) == SubRuns(a, cls, rep) + SubRuns(b, cls, rep)
  {
    assert !InClass(a[|a| - 1], cls);
    var ab := a + b;
    assert ab[0] == a[0];
    StripLeadingConcat(a, b, cls);
    SubRunsAtRun(a, [], cls, rep);
    assert StripLeading(b, cls) == b;
    SubRunsAtRun(ab, b, cls, rep);
    assert SubRuns([], cls, rep) == [];
    assert SubRuns(a, cls, rep) == [rep];
  }

  lemma ConcatAssoc(u: string, v: string, w: string)
    ensures u + (v + w) == (u + v) + w
  {
  }

  lemma LastOfSuffix(a: string, t: string)
    requires t != [] && |t| <= |a| && t == a[|a| - |t|..]
    ensures t[|t| - 1] == a[|a| - 1]
  {
  }

  lemma SubRunsAtRun(s: string, rest: string, cls: CharClass, rep: char)
    requires s != [] && !InClass(s[0], cls) && StripLeading(s, cls) == rest
    ensures SubRuns(s, cls, rep) == [rep] + SubRuns(rest, cls, rep)
  {
  }

  /** Line 43 emits at least one character for each character `Keep` keeps. */
  lemma {:induction false} KeepNoLongerThanSubRuns(s: string, cls: CharClass, rep: char)
    ensures |Keep(s, cls)| <= |SubRuns(s, cls, rep)|
    decreases |s|
  {
    if s != [] {
      if InClass(s[0], cls) {
        KeepNoLongerThanSubRuns(s[1..], cls, rep);
      } else {
        var t := StripLeading(s, cls);
        KeepStripLeading(s, cls);
        assert Keep(s, cls) == Keep(s[1..], cls);
        KeepNoLongerThanSubRuns(t, cls, rep);
      }
    }
  }

  /** The residue fallback of line 47 can never be taken either. */
  lemma ToolResidueFallbackUnreachable(name: string)
    requires |ToolCleaned(name)| < MinLength
    ensures |Keep(name, ToolChars)| < MinLength
  {
    ToolStripsAreNoOps(name);
    KeepNoLongerThanSubRuns(name, ToolChars, '_');
  }

  /** A short cleaned tool name always yields `kb_` plus one to five digits,
      four to eight characters in all. */
  lemma ToolShortName(name: string, hash: string -> int)
    requires |ToolCleaned(name)| < MinLength
    ensures ToOpenaiToolName(name, hash) == HashName("kb_", name, hash)
    ensures 4 <= |ToOpenaiToolName(name, hash)| <= 8
    ensures ToOpenaiToolName(name, hash)[..3] == "kb_"
    ensures AllDigits(ToOpenaiToolName(name, hash)[3..])
  {
    ToolResidueFallbackUnreachable(name);
    HashNameShape("kb_", name, hash);
    assert ToOpenaiToolName(name, hash) == Prefix(HashName("kb_", name, hash), ToolMaxLength);
  }

  /** Otherwise the result is line 43's output cut at 64 characters, so a
      leading underscore (or leading disallowed run) shows as `_`. */
  lemma ToolLongName(name: string, hash: string -> int)
    requires |SubRuns(name, ToolChars, '_')| >= MinLength
    ensures ToOpenaiToolName(name, hash) == Prefix(SubRuns(name, ToolChars, '_'), ToolMaxLength)
    ensures name[0] == '_' || !InClass(name[0], ToolChars) ==> ToOpenaiToolName(name, hash)[0] == '_'
  {
    ToolStripsAreNoOps(name);
  }
}

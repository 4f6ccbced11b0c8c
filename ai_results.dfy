/**
 * The completion parser of `generateResult`: the reply of the language model is cut into
 * files (one per fenced code block, named by the `[filename: …]` tags in order) and an
 * explanation (whatever is left once tags and blocks are removed, trimmed).
 */
module AiResults {
  import opened Wrappers
  import opened Strings
  import opened Patterns

  /** A parsed file: the language tag of its block is not kept. */
  datatype FileRecord = FileRecord(filename: string, code: string)

  /** What `generateResult` resolves to. */
  datatype AiResult = AiResult(text: string, files: seq<FileRecord>)

  /** The model service's answer: a response whose `text` may be absent, or an exception. */
  datatype Reply = Responded(text: Option<string>) | Threw

  const ErrorText: string := "AI error occurred."
  const NoExplanation: string := "No explanation provided."

  /** `match[g]`, read as the empty string when the match has no such group. */
  function Group(groups: seq<string>, g: nat): string {
    if g < |groups| then groups[g] else ""
  }

  /** Group `g` of every match in `ms`. */
  function Column(ms: seq<seq<string>>, g: nat): (r: seq<string>)
    ensures |r| == |ms|
    decreases |ms|
  {
    if ms == [] then [] else [Group(ms[0], g)] + Column(ms[1..], g)
  }

  /** The `i`-th entry of a column is group `g` of the `i`-th match. */
  lemma {:induction false} ColumnAt(ms: seq<seq<string>>, g: nat, i: nat)
    requires i < |ms|
    ensures Column(ms, g)[i] == Group(ms[i], g)
    decreases i
  {
    if i > 0 {
      ColumnAt(ms[1..], g, i - 1);
    }
  }

  // ---------------------------------------------------------------- the parser as a function

  /** The names captured by the `[filename: …]` tags of `raw`, left to right. */
  function Filenames(raw: string): seq<string> {
    Column(Matches(TagAt, raw), 0)
  }

  /** The `[lang, body]` groups of the complete fenced blocks of `raw`, left to right. */
  function Blocks(raw: string): seq<seq<string>> {
    Matches(FenceAt, raw)
  }

  /** `codeMatch[1] || "text"`. */
  function Lang(tag: string): string {
    OrElse(Some(tag), "text")
  }

  /** The name given to the `n`-th block (counting from 1) when no tag names it. */
  function SnippetName(n: nat, lang: string): string {
    "snippet" + NatToString(n) + "." + lang
  }

  /** `names[i]`, which is `undefined` past the end. */
  function Lookup(names: seq<string>, i: nat): Option<string> {
    if i < |names| then Some(names[i]) else None
  }

  /** `filenames[i] || snippet{i+1}.{lang}`: an absent or empty name falls back. */
  function FileName(names: seq<string>, i: nat, lang: string): string {
    OrElse(Lookup(names, i), SnippetName(i + 1, lang))
  }

  /** The file made of block `groups` when it is block number `i` (from 0). */
  function MakeFile(groups: seq<string>, names: seq<string>, i: nat): FileRecord {
    FileRecord(FileName(names, i, Lang(Group(groups, 0))), Group(groups, 1))
  }

  /** The blocks `blocks`, numbered from `i` on, as files. */
  function PairFrom(blocks: seq<seq<string>>, names: seq<string>, i: nat): (r: seq<FileRecord>)
    ensures |r| == |blocks|
    decreases |blocks|
  {
    if blocks == [] then [] else [MakeFile(blocks[0], names, i)] + PairFrom(blocks[1..], names, i + 1)
  }

  /** The blocks from the first on: its file, then the files of the others. */
  lemma PairFromCons(blocks: seq<seq<string>>, names: seq<string>, i: nat)
    requires blocks != []
    ensures PairFrom(blocks, names, i) == [MakeFile(blocks[0], names, i)] + PairFrom(blocks[1..], names, i + 1)
  {
  }

  /** The i-th block becomes a file named by the i-th name. */
  function PairFiles(blocks: seq<seq<string>>, names: seq<string>): seq<FileRecord> {
    PairFrom(blocks, names, 0)
  }

  function Files(raw: string): seq<FileRecord> {
    PairFiles(Blocks(raw), Filenames(raw))
  }

  /** The text with the tags removed, then the blocks of what is left removed. */
  function Stripped(raw: string): string {
    Replace(FenceAt, Replace(TagAt, raw))
  }

  /** The trimmed leftover text, or the fallback when nothing but whitespace is left. */
  function Explanation(raw: string): string {
    TextOrFallback(Stripped(raw))
  }

  /** `left.trim() || "No explanation provided."`. */
  function TextOrFallback(left: string): (r: string)
    ensures AllSpace(left) ==> r == NoExplanation
    ensures !AllSpace(left) ==> r == Trim(left)
  {
    OrElse(Some(Trim(left)), NoExplanation)
  }

  function Parse(raw: string): AiResult {
    AiResult(Explanation(raw), Files(raw))
  }

  /** What `generateResult` returns for a given answer of the model service. */
  function Outcome(reply: Reply): AiResult {
    match reply
    case Threw => AiResult(ErrorText, [])
    case Responded(text) => Parse(OrElse(text, ""))
  }

  // ---------------------------------------------------------------- the parser as written

  /**
   * The loop that pushes `match[1]` for every `filenameRegex.exec(rawText)`, for any
   * regex given as a matcher.
   */
  method CollectFilenames(filenameRegex: Matcher, rawText: string) returns (filenames: seq<string>)
    ensures filenames == Column(Matches(filenameRegex, rawText), 0)
  {
    filenames := [];
    var lastIndex := 0;
    var found := Exec(filenameRegex, rawText, lastIndex);
    while found.Some?
      invariant lastIndex <= |rawText| && found == Exec(filenameRegex, rawText, lastIndex)
      invariant NamesSoFar(filenameRegex, rawText, lastIndex, filenames)
      decreases |rawText| - lastIndex
    {
      var f := found.value;
      NameStep(filenameRegex, rawText, lastIndex, f, filenames, Group(f.groups, 0));
      filenames := filenames + [Group(f.groups, 0)];
      lastIndex := f.start + f.len;
      found := Exec(filenameRegex, rawText, lastIndex);
    }
    NamesDone(filenameRegex, rawText, lastIndex, filenames);
  }

  /**
   * The invariant of the tag loop: the names pushed so far, followed by the names the rest of
   * the loop would push, are the names of all tags.
   */
  ghost predicate NamesSoFar(m: Matcher, s: string, from: nat, names: seq<string>)
    requires from <= |s|
  {
    names + Column(ExecAll(m, s, from), 0) == Column(ExecAll(m, s, 0), 0)
  }

  /** The body of the tag loop pushes the name `Column` puts first, so the loop invariant is kept. */
  lemma NameStep(m: Matcher, s: string, from: nat, f: Found, names: seq<string>, name: string)
    requires from <= |s| && Exec(m, s, from) == Some(f)
    requires NamesSoFar(m, s, from, names)
    requires name == Group(f.groups, 0)
    ensures NamesSoFar(m, s, f.start + f.len, names + [name])
  {
    ExecAllStep(m, s, from);
    var tail := ExecAll(m, s, f.start + f.len);
    assert Column(ExecAll(m, s, from), 0) == [name] + Column(tail, 0);
    MoveFirst(names, name, Column(tail, 0));
  }

  /**
   * The loop that turns every `codeBlockRegex.exec(rawText)` into a file, for any regex given
   * as a matcher. Its counter `fileIndex` always equals the number of files pushed so far, and
   * is read here as `|files|`.
   */
  method CollectFiles(codeBlockRegex: Matcher, rawText: string, filenames: seq<string>)
    returns (files: seq<FileRecord>)
    ensures files == PairFiles(Matches(codeBlockRegex, rawText), filenames)
  {
    files := [];
    var lastIndex := 0;
    var found := Exec(codeBlockRegex, rawText, lastIndex);
    while found.Some?
      invariant lastIndex <= |rawText| && found == Exec(codeBlockRegex, rawText, lastIndex)
      invariant FilesSoFar(codeBlockRegex, rawText, lastIndex, filenames, files)
      decreases |rawText| - lastIndex
    {
      var f := found.value;
      var file := MakeFile(f.groups, filenames, |files|);
      FileStep(codeBlockRegex, rawText, lastIndex, f, files, filenames, file);
      files := files + [file];
      lastIndex := f.start + f.len;
      found := Exec(codeBlockRegex, rawText, lastIndex);
    }
    FilesDone(codeBlockRegex, rawText, lastIndex, filenames, files);
  }

  /**
   * The invariant of the block loop: the files built so far, followed by the files the rest of
   * the loop would build (numbered on from them), are the files of all blocks.
   */
  ghost predicate FilesSoFar(m: Matcher, s: string, from: nat, names: seq<string>, files: seq<FileRecord>)
    requires from <= |s|
  {
    files + PairFrom(ExecAll(m, s, from), names, |files|) == PairFiles(ExecAll(m, s, 0), names)
  }

  /** The body of the block loop builds the file `PairFrom` puts first, so the loop invariant is kept. */
  lemma FileStep(m: Matcher, s: string, from: nat, f: Found, files: seq<FileRecord>, names: seq<string>, file: FileRecord)
    requires from <= |s| && Exec(m, s, from) == Some(f)
    requires FilesSoFar(m, s, from, names, files)
    requires file == MakeFile(f.groups, names, |files|)
    ensures FilesSoFar(m, s, f.start + f.len, names, files + [file])
  {
    ExecAllStep(m, s, from);
    PairFromCons(ExecAll(m, s, from), names, |files|);
    MoveFirst(files, file, PairFrom(ExecAll(m, s, f.start + f.len), names, |files| + 1));
  }

  /** Once `exec` returns `null`, the names pushed are the names of all tags. */
  lemma NamesDone(m: Matcher, s: string, from: nat, names: seq<string>)
    requires from <= |s| && Exec(m, s, from).None? && NamesSoFar(m, s, from, names)
    ensures names == Column(Matches(m, s), 0)
  {
    ExecAllMatches(m, s, 0);
    assert s[0..] == s;
    assert names + [] == names;
  }

  /** Once `exec` returns `null`, the files built are the files of all blocks. */
  lemma FilesDone(m: Matcher, s: string, from: nat, names: seq<string>, files: seq<FileRecord>)
    requires from <= |s| && Exec(m, s, from).None? && FilesSoFar(m, s, from, names, files)
    ensures files == PairFiles(Matches(m, s), names)
  {
    ExecAllMatches(m, s, 0);
    assert s[0..] == s;
    assert files + [] == files;
  }

  /** Moving the first pending item to the ones done keeps their concatenation. */
  lemma MoveFirst<T>(done: seq<T>, x: T, tail: seq<T>)
    ensures done + ([x] + tail) == (done + [x]) + tail
  {
  }

  /** `generateResult` once the model service has answered. */
  method GenerateResult(reply: Reply) returns (result: AiResult)
    ensures result == Outcome(reply)
    ensures reply.Threw? ==> result == AiResult(ErrorText, [])
    ensures result.text != ""
  {
    if reply.Threw? {
      return AiResult(ErrorText, []);
    }
    var rawText := OrElse(reply.text, "");
    var filenames := CollectFilenames(TagAt, rawText);
    var files := CollectFiles(FenceAt, rawText, filenames);
    var text := Trim(Replace(FenceAt, Replace(TagAt, rawText)));
    result := AiResult(OrElse(Some(text), NoExplanation), files);
  }
}

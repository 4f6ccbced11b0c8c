/**
 * The parser against a reference: a reply assembled from snippets (an optional
 * `[filename: …]` tag, then a fenced block) and trailing prose parses back into exactly
 * those files and that prose, and a fence that is never closed yields no file.
 */
module RoundTrip {
  import opened Wrappers
  import opened Strings
  import opened Patterns
  import opened AiResults
  import opened ParserFacts

  /** One file of a reply as the model service is asked to write it. */
  datatype Snippet = Snippet(name: Option<string>, lang: string, code: string)

  /** A tag as the model service is asked to write it: `[filename: name]`. */
  function TagText(name: string): string {
    TagOpen + " " + name + "]"
  }

  function BlockText(lang: string, code: string): string {
    Fence + lang + "\n" + code + Fence
  }

  function TagPart(s: Snippet): string {
    match s.name
    case Some(n) => TagText(n)
    case None => ""
  }

  /** The block of a snippet between two newlines. */
  function BlockLine(s: Snippet): string {
    "\n" + BlockText(s.lang, s.code) + "\n"
  }

  /** A snippet on its own lines: the tag (if any), a newline, the block, a newline. */
  function SnippetText(s: Snippet): string {
    TagPart(s) + BlockLine(s)
  }

  /** The reply: every snippet in order, then the prose. */
  function Assemble(ss: seq<Snippet>, prose: string): string
    decreases |ss|
  {
    if ss == [] then prose else SnippetText(ss[0]) + Assemble(ss[1..], prose)
  }

  predicate NoChar(s: string, c: char) {
    c !in s
  }

  /** The literal `lit` occurs nowhere in `s`. */
  predicate Lacks(s: string, lit: string) {
    forall k :: 0 <= k <= |s| ==> !At(s, k, lit)
  }

  predicate Alnum(s: string) {
    forall k :: 0 <= k < |s| ==> IsAlnum(s[k])
  }

  /**
   * A tag name that the tag regex captures whole and that opens no fence: non-empty, no
   * leading whitespace, no `]`, no three backticks.
   */
  predicate GoodName(n: string) {
    n != [] && !IsSpace(n[0]) && NoChar(n, ']') && Lacks(n, Fence)
  }

  /** Code whose block ends at the fence written after it: no fence starts any earlier. */
  predicate ClosedBy(code: string) {
    forall k :: 0 <= k < |code| ==> !At(code + Fence, k, Fence)
  }

  /**
   * What the round trip needs of a snippet: a good name, an alphanumeric language, and code
   * that holds no `[filename:` and does not close its block early. Brackets and backticks
   * are otherwise free.
   */
  predicate Fits(s: Snippet) {
    && (s.name.Some? ==> GoodName(s.name.value))
    && Alnum(s.lang)
    && Lacks(s.code, TagOpen) && ClosedBy(s.code)
  }

  /** Prose that holds no filename tag and no complete block. */
  predicate Plain(prose: string) {
    Matches(TagAt, prose) == [] && Matches(FenceAt, prose) == []
  }

  predicate AllFit(ss: seq<Snippet>) {
    forall i :: 0 <= i < |ss| ==> Fits(ss[i])
  }

  /** The names of the named snippets, in order. */
  function Names(ss: seq<Snippet>): seq<string>
    decreases |ss|
  {
    if ss == [] then []
    else (if ss[0].name.Some? then [ss[0].name.value] else []) + Names(ss[1..])
  }

  /** The `[lang, code]` groups of the snippets' blocks, in order. */
  function BlockGroups(ss: seq<Snippet>): (r: seq<seq<string>>)
    ensures |r| == |ss|
    decreases |ss|
  {
    if ss == [] then [] else [[ss[0].lang, ss[0].code]] + BlockGroups(ss[1..])
  }

  /** The reply once its tags are gone. */
  function Untagged(ss: seq<Snippet>, prose: string): string
    decreases |ss|
  {
    if ss == [] then prose else BlockLine(ss[0]) + Untagged(ss[1..], prose)
  }

  /** Two newlines per snippet: what is left of the snippets once tags and blocks are gone. */
  function Gap(n: nat): string {
    if n == 0 then "" else "\n\n" + Gap(n - 1)
  }

  lemma {:induction false} GapIsSpace(n: nat)
    ensures AllSpace(Gap(n))
  {
    if n > 0 {
      GapIsSpace(n - 1);
      AllSpaceConcat("\n\n", Gap(n - 1));
    }
  }

  // ---------------------------------------------------------------- where no match can start

  /** Every match of `m` opens with the literal `lit`. */
  ghost predicate Opens(m: Matcher, lit: string) {
    forall t :: HitAt(m, t).Some? ==> At(t, 0, lit)
  }

  lemma TagOpens()
    ensures Opens(TagAt, TagOpen)
  {
  }

  lemma FenceOpens()
    ensures Opens(FenceAt, Fence)
  {
  }

  /** No `lit` starts among the first `n` characters of `t`. */
  predicate ClearTo(t: string, n: nat, lit: string) {
    forall k :: 0 <= k < n ==> !At(t, k, lit)
  }

  /** `lit` at `j` of a suffix of `t` is `lit` at `k + j` of `t`. */
  lemma AtShift(t: string, k: nat, j: nat, lit: string)
    requires k <= |t|
    ensures At(t[k..], j, lit) <==> At(t, k + j, lit)
  {
    if k + j + |lit| <= |t| {
      assert t[k..][j..j + |lit|] == t[k + j..k + j + |lit|];
    }
  }

  /** A stretch where the literal every match opens with never starts is kept and adds no match. */
  lemma SkipClear(m: Matcher, lit: string, a: string, b: string)
    requires Opens(m, lit) && ClearTo(a + b, |a|, lit)
    ensures Replace(m, a + b) == a + Replace(m, b)
    ensures Matches(m, a + b) == Matches(m, b)
  {
    forall k | 0 <= k < |a| ensures HitAt(m, (a + b)[k..]).None? {
      AtShift(a + b, k, 0, lit);
    }
    ScanSkip(m, a, b);
  }

  /** Three stretches in a row, each clear of `lit`: all three are kept and add no match. */
  lemma SkipClear3(m: Matcher, lit: string, x: string, y: string, z: string, rest: string)
    requires Opens(m, lit)
    requires ClearTo(x + (y + (z + rest)), |x|, lit)
    requires ClearTo(y + (z + rest), |y|, lit)
    requires ClearTo(z + rest, |z|, lit)
    ensures Replace(m, x + (y + (z + rest))) == x + (y + (z + Replace(m, rest)))
    ensures Matches(m, x + (y + (z + rest))) == Matches(m, rest)
  {
    SkipClear(m, lit, x, y + (z + rest));
    SkipClear(m, lit, y, z + rest);
    SkipClear(m, lit, z, rest);
  }

  /** Characters none of which is the first of `lit` start no `lit`, whatever follows. */
  lemma ClearChars(a: string, b: string, lit: string)
    requires lit != [] && NoChar(a, lit[0])
    ensures ClearTo(a + b, |a|, lit)
  {
    forall k | 0 <= k < |a| ensures !At(a + b, k, lit) {
      if k + |lit| <= |a + b| {
        assert (a + b)[k..k + |lit|][0] == a[k];
      }
    }
  }

  /** Text without `lit`, then a character that is not in `lit`: no `lit` starts in the text. */
  lemma ClearBefore(a: string, b: string, lit: string)
    requires Lacks(a, lit) && b != [] && b[0] !in lit
    ensures ClearTo(a + b, |a|, lit)
  {
    forall k | 0 <= k < |a| ensures !At(a + b, k, lit) {
      if k + |lit| <= |a| {
        assert (a + b)[k..k + |lit|] == a[k..k + |lit|];
        assert !At(a, k, lit);
      } else if k + |lit| <= |a + b| {
        assert (a + b)[k..k + |lit|][|a| - k] == b[0];
      }
    }
  }

  /**
   * Text where no match can start, one match `a`, more such text, then the rest: the match
   * is removed and reported, the text around it kept.
   */
  lemma ScanAround(m: Matcher, lit: string, pre: string, a: string, gs: seq<string>, post: string, rest: string)
    requires Opens(m, lit) && lit != [] && NoChar(pre, lit[0]) && NoChar(post, lit[0])
    requires a != [] && HitAt(m, a + (post + rest)) == Some(Hit(|a|, gs))
    ensures Replace(m, pre + a + post + rest) == pre + post + Replace(m, rest)
    ensures Matches(m, pre + a + post + rest) == [gs] + Matches(m, rest)
  {
    assert pre + a + post + rest == pre + (a + (post + rest));
    ClearChars(pre, a + (post + rest), lit);
    SkipClear(m, lit, pre, a + (post + rest));
    ScanHit(m, a, post + rest, gs);
    ClearChars(post, rest, lit);
    SkipClear(m, lit, post, rest);
    assert pre + (post + Replace(m, rest)) == pre + post + Replace(m, rest);
  }

  lemma ScanEmpty(m: Matcher)
    ensures Replace(m, "") == "" && Matches(m, "") == []
  {
    assert Segment(m, "") == [];
  }

  // ---------------------------------------------------------------- one tag, one block

  /** A good name in a tag is captured whole. */
  lemma TagMatches(n: string, rest: string)
    requires GoodName(n)
    ensures HitAt(TagAt, TagText(n) + rest) == Some(Hit(|TagText(n)|, [n]))
  {
    var t := TagText(n) + rest;
    var c := 11 + |n|;
    assert t[..10] == TagOpen;
    assert t[c] == ']';
    forall k | 10 <= k < c ensures t[k] != ']' {
      if k > 10 { assert t[k] == n[k - 11]; }
    }
    assert IndexOf(t, 10, ']') == Some(c);
    assert t[10] == ' ' && t[11] == n[0];
    assert SpaceRun(t, 11, c) == 0;
    assert SpaceRun(t, 10, c) == 1;
    assert t[11..c] == n;
  }

  /** The language tag after an opening fence is the whole alphanumeric run before the newline. */
  lemma LangRun(t: string, lang: string)
    requires 3 + |lang| < |t| && t[3..3 + |lang|] == lang && t[3 + |lang|] == '\n' && Alnum(lang)
    ensures AlnumRun(t, 3) == |lang|
  {
    forall k | 3 <= k < 3 + |lang| ensures IsAlnum(t[k]) {
      assert t[k] == lang[k - 3];
    }
  }

  /** The first closing fence after the newline is the one written right after the code. */
  lemma CloseAfter(t: string, from: nat, code: string)
    requires from + |code| + 3 <= |t| && t[from..from + |code| + 3] == code + Fence && ClosedBy(code)
    ensures FenceFrom(t, from) == Some(from + |code|)
  {
    var c, w := from + |code|, t[from..from + |code| + 3];
    AtSlice(t, from, from + |code| + 3, |code|, Fence);
    assert At(w, |code|, Fence);
    forall k | from <= k < c ensures !At(t, k, Fence) {
      AtSlice(t, from, from + |code| + 3, k - from, Fence);
      assert !At(code + Fence, k - from, Fence);
    }
  }

  /** `lit` at `j` of the slice `t[a..b]` is `lit` at `a + j` of `t`, when it fits the slice. */
  lemma AtSlice(t: string, a: nat, b: nat, j: nat, lit: string)
    requires a <= b <= |t| && j + |lit| <= b - a
    ensures At(t[a..b], j, lit) <==> At(t, a + j, lit)
  {
    var x, y := t[a..b][j..j + |lit|], t[a + j..a + j + |lit|];
    forall i | 0 <= i < |lit| ensures x[i] == y[i] {
      assert t[a..b][j + i] == t[a + j + i];
    }
    assert x == y;
  }

  /** A character of `t` that differs from the one `lit` has there rules `lit` out at `k`. */
  lemma MissAt(t: string, k: nat, i: nat, lit: string)
    requires k <= i < k + |lit| <= |t| && t[i] != lit[i - k]
    ensures !At(t, k, lit)
  {
    assert t[k..k + |lit|][i - k] == t[i];
  }

  /** A block with an alphanumeric language and code that does not close it early is matched whole. */
  lemma FenceMatches(lang: string, code: string, rest: string)
    requires Alnum(lang) && ClosedBy(code)
    ensures HitAt(FenceAt, BlockText(lang, code) + rest) == Some(Hit(|BlockText(lang, code)|, [lang, code]))
  {
    BlockSlices(lang, code, rest);
    FenceAtBlock(BlockText(lang, code) + rest, lang, code);
  }

  /** The fence regex on a text laid out as a block, known only through where its parts lie. */
  lemma FenceAtBlock(t: string, lang: string, code: string)
    requires Alnum(lang) && ClosedBy(code)
    requires var a := 3 + |lang|;
      && a + 1 + |code| + 3 <= |t|
      && t[..3] == Fence && t[3..a] == lang && t[a] == '\n'
      && t[a + 1..a + 1 + |code| + 3] == code + Fence
    ensures HitAt(FenceAt, t) == Some(Hit(|lang| + |code| + 7, [lang, code]))
  {
    var a, c := 3 + |lang|, 4 + |lang| + |code|;
    LangRun(t, lang);
    BlockClose(t, a + 1, code);
    FenceAtParts(t, a, c);
    assert [t[3..a], t[a + 1..c]] == [lang, code];
  }

  /** The closing fence of a block, and the code before it. */
  lemma BlockClose(t: string, from: nat, code: string)
    requires from + |code| + 3 <= |t| && t[from..from + |code| + 3] == code + Fence && ClosedBy(code)
    ensures FenceFrom(t, from) == Some(from + |code|) && t[from..from + |code|] == code
  {
    CloseAfter(t, from, code);
    assert t[from..from + |code|] == (code + Fence)[..|code|];
  }

  /** The fence regex once the newline after the language and the closing fence are found. */
  lemma FenceAtParts(t: string, a: nat, c: nat)
    requires At(t, 0, Fence) && a == 3 + AlnumRun(t, 3) && a < |t| && t[a] == '\n'
    requires a + 1 <= |t| && FenceFrom(t, a + 1) == Some(c)
    ensures HitAt(FenceAt, t) == Some(Hit(c + 3, [t[3..a], t[a + 1..c]]))
  {
  }

  /** Where the parts of a block lie in the text that starts with it. */
  lemma BlockSlices(lang: string, code: string, rest: string)
    ensures var t, a := BlockText(lang, code) + rest, 3 + |lang|;
      && |t| == a + 1 + |code| + 3 + |rest|
      && t[..3] == Fence && t[3..a] == lang && t[a] == '\n'
      && t[a + 1..a + 1 + |code| + 3] == code + Fence
  {
    var t, a := BlockText(lang, code) + rest, 3 + |lang|;
    assert t == Fence + lang + "\n" + (code + Fence) + rest;
  }

  /** The line that opens a block holds no `[`. */
  lemma OpenLinePlain(lang: string)
    requires Alnum(lang)
    ensures NoChar("\n" + Fence + lang + "\n", '[')
  {
    var o := "\n" + Fence + lang + "\n";
    forall k | 0 <= k < |o| ensures o[k] != '[' {
      if 4 <= k < 4 + |lang| { assert o[k] == lang[k - 4]; }
    }
  }

  /** No tag starts in the block line of a fitting snippet: removing tags keeps it whole. */
  lemma BlockLineTags(s: Snippet, rest: string)
    requires Fits(s)
    ensures Replace(TagAt, BlockLine(s) + rest) == BlockLine(s) + Replace(TagAt, rest)
    ensures Matches(TagAt, BlockLine(s) + rest) == Matches(TagAt, rest)
  {
    var open, close := "\n" + Fence + s.lang + "\n", Fence + "\n";
    BlockLineParts(s, open, close, rest);
    TagOpens();
    OpenLinePlain(s.lang);
    ClearChars(open, s.code + (close + rest), TagOpen);
    ClearBefore(s.code, close + rest, TagOpen);
    ClearChars(close, rest, TagOpen);
    SkipClear3(TagAt, TagOpen, open, s.code, close, rest);
  }

  lemma BlockLineParts(s: Snippet, open: string, close: string, rest: string)
    requires open == "\n" + Fence + s.lang + "\n" && close == Fence + "\n"
    ensures BlockLine(s) + rest == open + (s.code + (close + rest))
    ensures forall r :: BlockLine(s) + r == open + (s.code + (close + r))
  {
    forall r ensures BlockLine(s) + r == open + (s.code + (close + r)) {
      assert BlockLine(s) == open + s.code + close;
    }
  }

  /** Removing tags from a snippet leaves its block; its tag, if any, is the next tag match. */
  lemma TagScanSnippet(s: Snippet, rest: string)
    requires Fits(s)
    ensures Replace(TagAt, SnippetText(s) + rest) == BlockLine(s) + Replace(TagAt, rest)
    ensures s.name.Some? ==> Matches(TagAt, SnippetText(s) + rest) == [[s.name.value]] + Matches(TagAt, rest)
    ensures s.name.None? ==> Matches(TagAt, SnippetText(s) + rest) == Matches(TagAt, rest)
  {
    SnippetSplit(s, rest);
    BlockLineTags(s, rest);
    if s.name.Some? {
      TagMatches(s.name.value, BlockLine(s) + rest);
      ScanHit(TagAt, TagPart(s), BlockLine(s) + rest, [s.name.value]);
    }
  }

  lemma SnippetSplit(s: Snippet, rest: string)
    ensures SnippetText(s) + rest == TagPart(s) + (BlockLine(s) + rest)
    ensures s.name.None? ==> SnippetText(s) + rest == BlockLine(s) + rest
  {
  }

  /** No fence starts in the tag of a fitting snippet. */
  lemma TagPartFences(s: Snippet, x: string)
    requires Fits(s)
    ensures Matches(FenceAt, TagPart(s) + x) == Matches(FenceAt, x)
  {
    if s.name.Some? {
      var n := s.name.value;
      FenceOpens();
      assert TagPart(s) + x == (TagOpen + " ") + (n + ("]" + x));
      ClearChars(TagOpen + " ", n + ("]" + x), Fence);
      ClearBefore(n, "]" + x, Fence);
      ClearChars("]", x, Fence);
      SkipClear3(FenceAt, Fence, TagOpen + " ", n, "]", x);
    } else {
      assert TagPart(s) + x == x;
    }
  }

  /** A block between two newlines is the next block match, and removing it leaves the newlines. */
  lemma BlockLineFences(lang: string, code: string, rest: string)
    requires Alnum(lang) && ClosedBy(code)
    ensures Replace(FenceAt, "\n" + BlockText(lang, code) + "\n" + rest) == "\n\n" + Replace(FenceAt, rest)
    ensures Matches(FenceAt, "\n" + BlockText(lang, code) + "\n" + rest) == [[lang, code]] + Matches(FenceAt, rest)
  {
    FenceOpens();
    FenceMatches(lang, code, "\n" + rest);
    ScanAround(FenceAt, Fence, "\n", BlockText(lang, code), [lang, code], "\n", rest);
    assert "\n" + "\n" + Replace(FenceAt, rest) == "\n\n" + Replace(FenceAt, rest);
  }

  /** A snippet's block is the next block match. */
  lemma FenceScanSnippet(s: Snippet, rest: string)
    requires Fits(s)
    ensures Matches(FenceAt, SnippetText(s) + rest) == [[s.lang, s.code]] + Matches(FenceAt, rest)
  {
    SnippetSplit(s, rest);
    TagPartFences(s, BlockLine(s) + rest);
    assert BlockLine(s) + rest == "\n" + BlockText(s.lang, s.code) + "\n" + rest;
    BlockLineFences(s.lang, s.code, rest);
  }

  // ---------------------------------------------------------------- the whole reply

  lemma AllFitTail(ss: seq<Snippet>)
    requires ss != [] && AllFit(ss)
    ensures Fits(ss[0]) && AllFit(ss[1..])
  {
    forall i | 0 <= i < |ss| - 1 ensures Fits(ss[1..][i]) {
      assert ss[1..][i] == ss[i + 1];
    }
  }

  /** The tags of the reply name the named snippets, in order, and removing them leaves the rest. */
  lemma {:induction false} AssembleTags(ss: seq<Snippet>, prose: string)
    requires AllFit(ss) && Plain(prose)
    ensures Filenames(Assemble(ss, prose)) == Names(ss)
    ensures Replace(TagAt, Assemble(ss, prose)) == Untagged(ss, prose)
    decreases |ss|
  {
    if ss == [] {
      ReplaceChangesIffMatch(TagAt, prose);
    } else {
      var rest := Assemble(ss[1..], prose);
      AllFitTail(ss);
      AssembleTags(ss[1..], prose);
      TagScanSnippet(ss[0], rest);
      var ms := Matches(TagAt, rest);
      assert Assemble(ss, prose) == SnippetText(ss[0]) + rest;
      if ss[0].name.Some? {
        var n := ss[0].name.value;
        assert ([[n]] + ms)[1..] == ms;
        assert Column([[n]] + ms, 0) == [n] + Column(ms, 0);
        assert Names(ss) == [n] + Names(ss[1..]);
      } else {
        assert Names(ss) == Names(ss[1..]);
      }
    }
  }

  /** The blocks of the reply are the snippets' blocks, in order. */
  lemma {:induction false} AssembleBlocks(ss: seq<Snippet>, prose: string)
    requires AllFit(ss) && Plain(prose)
    ensures Blocks(Assemble(ss, prose)) == BlockGroups(ss)
    decreases |ss|
  {
    if ss != [] {
      AllFitTail(ss);
      AssembleBlocks(ss[1..], prose);
      FenceScanSnippet(ss[0], Assemble(ss[1..], prose));
    }
  }

  /** Once the tags are gone, removing the blocks leaves two newlines per snippet, then the prose. */
  lemma {:induction false} UntaggedStripped(ss: seq<Snippet>, prose: string)
    requires AllFit(ss) && Plain(prose)
    ensures Replace(FenceAt, Untagged(ss, prose)) == Gap(|ss|) + prose
    decreases |ss|
  {
    if ss == [] {
      ReplaceChangesIffMatch(FenceAt, prose);
      assert Gap(0) + prose == prose;
    } else {
      var rest, g := Untagged(ss[1..], prose), Gap(|ss| - 1);
      AllFitTail(ss);
      UntaggedStripped(ss[1..], prose);
      assert Untagged(ss, prose) == BlockLine(ss[0]) + rest;
      assert Gap(|ss|) == "\n\n" + g;
      StripStep(ss[0], rest, g, prose);
    }
  }

  /** Removing a snippet's block, once the blocks after it are removed. */
  lemma StripStep(s: Snippet, rest: string, g: string, prose: string)
    requires Fits(s) && Replace(FenceAt, rest) == g + prose
    ensures Replace(FenceAt, BlockLine(s) + rest) == ("\n\n" + g) + prose
  {
    BlockLineFences(s.lang, s.code, rest);
  }

  /** Leading whitespace does not change what `trim` gives. */
  lemma {:induction false} TrimSpacePrefix(w: string, p: string)
    requires AllSpace(w)
    ensures TrimStart(w + p) == TrimStart(p)
    decreases |w|
  {
    if w == [] {
      assert w + p == p;
    } else {
      assert IsSpace((w + p)[0]) by { assert (w + p)[0] == w[0]; }
      assert (w + p)[1..] == w[1..] + p;
      TrimSpacePrefix(w[1..], p);
    }
  }

  /** Leading whitespace changes neither the trimmed text nor whether the fallback is used. */
  lemma FallbackSpacePrefix(w: string, p: string)
    requires AllSpace(w)
    ensures TextOrFallback(w + p) == TextOrFallback(p)
  {
    TrimSpacePrefix(w, p);
    if AllSpace(p) {
      AllSpaceConcat(w, p);
    } else {
      var k :| 0 <= k < |p| && !IsSpace(p[k]);
      assert (w + p)[|w| + k] == p[k];
    }
  }

  lemma {:induction false} BlockGroupsAt(ss: seq<Snippet>, i: nat)
    requires i < |ss|
    ensures BlockGroups(ss)[i] == [ss[i].lang, ss[i].code]
    decreases i
  {
    if i > 0 {
      BlockGroupsAt(ss[1..], i - 1);
    }
  }

  /** The names of fitting snippets are good names. */
  lemma {:induction false} NamesGood(ss: seq<Snippet>)
    requires AllFit(ss)
    ensures forall j :: 0 <= j < |Names(ss)| ==> GoodName(Names(ss)[j])
    decreases |ss|
  {
    if ss != [] {
      AllFitTail(ss);
      NamesGood(ss[1..]);
    }
  }

  /**
   * The round trip: the assembled reply parses into one file per snippet, in order, holding
   * the snippet's code; file `i` carries the `i`-th tag's name (the snippets are named in
   * order, so unnamed snippets shift the later names forward) or, past the last tag,
   * `snippet{i+1}.{lang}`. The explanation is the prose, trimmed, or the fallback.
   */
  lemma ParseAssembled(ss: seq<Snippet>, prose: string)
    requires AllFit(ss) && Plain(prose)
    ensures var r := Parse(Assemble(ss, prose));
      && r.text == TextOrFallback(prose)
      && |r.files| == |ss|
      && forall i :: 0 <= i < |ss| ==> r.files[i] == FileRecord(
           if i < |Names(ss)| then Names(ss)[i] else SnippetName(i + 1, Lang(ss[i].lang)),
           ss[i].code)
  {
    ExplainAssembled(ss, prose);
    FilesAssembled(ss, prose);
  }

  /** Removing the tags, then the blocks, leaves two newlines per snippet, then the prose. */
  lemma StrippedAssembled(ss: seq<Snippet>, prose: string)
    requires AllFit(ss) && Plain(prose)
    ensures Stripped(Assemble(ss, prose)) == Gap(|ss|) + prose
  {
    AssembleTags(ss, prose);
    UntaggedStripped(ss, prose);
  }

  lemma ExplainAssembled(ss: seq<Snippet>, prose: string)
    requires AllFit(ss) && Plain(prose)
    ensures Explanation(Assemble(ss, prose)) == TextOrFallback(prose)
  {
    StrippedAssembled(ss, prose);
    GapIsSpace(|ss|);
    FallbackSpacePrefix(Gap(|ss|), prose);
  }

  lemma FilesAssembled(ss: seq<Snippet>, prose: string)
    requires AllFit(ss) && Plain(prose)
    ensures var files := Files(Assemble(ss, prose));
      && |files| == |ss|
      && forall i :: 0 <= i < |ss| ==> files[i] == FileRecord(
           if i < |Names(ss)| then Names(ss)[i] else SnippetName(i + 1, Lang(ss[i].lang)),
           ss[i].code)
  {
    AssembleTags(ss, prose);
    AssembleBlocks(ss, prose);
    NamesGood(ss);
    forall i | 0 <= i < |ss| {
      SnippetFile(ss, i);
    }
  }

  /** The file built from the `i`-th snippet's block, named by the snippets' names. */
  lemma SnippetFile(ss: seq<Snippet>, i: nat)
    requires i < |ss| && forall j :: 0 <= j < |Names(ss)| ==> GoodName(Names(ss)[j])
    ensures PairFiles(BlockGroups(ss), Names(ss))[i] == FileRecord(
      if i < |Names(ss)| then Names(ss)[i] else SnippetName(i + 1, Lang(ss[i].lang)), ss[i].code)
  {
    PairFromAt(BlockGroups(ss), Names(ss), 0, i);
    BlockGroupsAt(ss, i);
  }

  /** When every snippet is named, every file carries its own snippet's name and code. */
  lemma ParseAllNamed(ss: seq<Snippet>, prose: string)
    requires AllFit(ss) && Plain(prose)
    requires forall i :: 0 <= i < |ss| ==> ss[i].name.Some?
    ensures |Files(Assemble(ss, prose))| == |ss|
    ensures forall i :: 0 <= i < |ss| ==> Files(Assemble(ss, prose))[i] == FileRecord(ss[i].name.value, ss[i].code)
  {
    ParseAssembled(ss, prose);
    AllNamed(ss);
  }

  lemma {:induction false} AllNamed(ss: seq<Snippet>)
    requires forall i :: 0 <= i < |ss| ==> ss[i].name.Some?
    ensures |Names(ss)| == |ss| && forall i :: 0 <= i < |ss| ==> Names(ss)[i] == ss[i].name.value
    decreases |ss|
  {
    if ss != [] {
      assert forall i :: 0 <= i < |ss| - 1 ==> ss[1..][i] == ss[i + 1];
      AllNamed(ss[1..]);
      assert forall i :: 1 <= i < |ss| ==> Names(ss)[i] == Names(ss[1..])[i - 1];
    }
  }

  /** Code with brackets and single backticks fits, such as `print(xs[0])` in `main.py`. */
  lemma BracketedCodeFits()
    ensures Fits(Snippet(Some("main.py"), "python", "print(xs[0])"))
  {
    var code := "print(xs[0])";
    forall k | 0 <= k <= |code| ensures !At(code, k, TagOpen) {
      if k + 10 <= |code| { assert code[k..k + 10][0] == code[k]; }
    }
    forall k | 0 <= k < |code| ensures !At(code + Fence, k, Fence) {
      assert (code + Fence)[k..k + 3][0] == code[k];
    }
    NoCharLacks("main.py", Fence);
  }

  /** Text without the first character of `lit` holds no `lit`. */
  lemma NoCharLacks(s: string, lit: string)
    requires lit != [] && NoChar(s, lit[0])
    ensures Lacks(s, lit)
  {
    forall k | 0 <= k <= |s| ensures !At(s, k, lit) {
      if k + |lit| <= |s| { assert s[k..k + |lit|][0] == s[k]; }
    }
  }

  // ---------------------------------------------------------------- a fence never closed

  /**
   * Prose `p`, three backticks, prose `q`, where the backticks open a fence that nothing
   * closes: neither side holds three backticks or a `[filename:`, and no backtick touches
   * the fence.
   */
  predicate Unclosed(p: string, q: string) {
    && Lacks(p, Fence) && Lacks(q, Fence) && Lacks(p, TagOpen) && Lacks(q, TagOpen)
    && (p != [] ==> p[|p| - 1] != '`') && (q != [] ==> q[0] != '`')
  }

  /** The only three backticks in `p + Fence + q` are the fence itself. */
  lemma OnlyFence(p: string, q: string)
    requires Unclosed(p, q)
    ensures forall k :: 0 <= k <= |p + Fence + q| && k != |p| ==> !At(p + Fence + q, k, Fence)
  {
    var u := p + Fence + q;
    forall k | 0 <= k <= |u| && k != |p| ensures !At(u, k, Fence) {
      if k + 3 <= |u| {
        if k + 3 <= |p| {
          assert u[k..k + 3] == p[k..k + 3];
          assert !At(p, k, Fence);
        } else if k < |p| {
          assert u[|p| - 1] == p[|p| - 1];
          MissAt(u, k, |p| - 1, Fence);
        } else if k < |p| + 3 {
          assert u[|p| + 3] == q[0];
          MissAt(u, k, |p| + 3, Fence);
        } else {
          assert u[k..k + 3] == q[k - |p| - 3..k - |p|];
          assert !At(q, k - |p| - 3, Fence);
        }
      }
    }
  }

  /** No tag starts in `p + Fence + q`. */
  lemma UnclosedNoTag(p: string, q: string)
    requires Unclosed(p, q)
    ensures Lacks(p + Fence + q, TagOpen)
  {
    var u := p + Fence + q;
    assert '`' !in TagOpen;
    forall k | 0 <= k <= |u| ensures !At(u, k, TagOpen) {
      if k + 10 <= |u| {
        if k + 10 <= |p| {
          assert u[k..k + 10] == p[k..k + 10];
          assert !At(p, k, TagOpen);
        } else if k < |p| + 3 {
          var i := if k < |p| then |p| else k;
          assert u[k..k + 10][i - k] == u[i] == '`';
        } else {
          assert u[k..k + 10] == q[k - |p| - 3..k - |p| + 7];
          assert !At(q, k - |p| - 3, TagOpen);
        }
      }
    }
  }

  /** Backticks opening a fence that is never closed start no block and are not removed. */
  lemma UnclosedNoBlock(p: string, q: string)
    requires Unclosed(p, q)
    ensures Replace(FenceAt, p + Fence + q) == p + Fence + q && Matches(FenceAt, p + Fence + q) == []
  {
    var u := p + Fence + q;
    OnlyFence(p, q);
    forall k | 0 <= k < |u| ensures HitAt(FenceAt, u[k..]).None? {
      AtShift(u, k, 0, Fence);
      if k == |p| {
        forall j | 4 <= j <= |u[k..]| ensures !At(u[k..], j, Fence) {
          AtShift(u, k, j, Fence);
        }
      }
    }
    SegmentNoMatch(FenceAt, u);
  }

  /** Text holding no `[filename:` holds no tag: no names, and nothing removed. */
  lemma NoTags(raw: string)
    requires Lacks(raw, TagOpen)
    ensures Filenames(raw) == [] && Matches(TagAt, raw) == [] && Replace(TagAt, raw) == raw
  {
    forall k | 0 <= k < |raw| ensures HitAt(TagAt, raw[k..]).None? {
      AtShift(raw, k, 0, TagOpen);
    }
    SegmentNoMatch(TagAt, raw);
  }

  /** Prose around a fence never closed holds no tag and no complete block. */
  lemma UnclosedPlain(p: string, q: string)
    requires Unclosed(p, q)
    ensures Plain(p + Fence + q)
  {
    UnclosedNoTag(p, q);
    NoTags(p + Fence + q);
    UnclosedNoBlock(p, q);
  }

  /**
   * Complete blocks, then prose in which three backticks open a fence that is never closed:
   * the files are those of the complete blocks alone, one per snippet, and the unclosed
   * fence stays, backticks included, in the text the explanation is made of.
   */
  lemma UnclosedFence(ss: seq<Snippet>, p: string, q: string)
    requires AllFit(ss) && Unclosed(p, q)
    ensures Files(Assemble(ss, p + Fence + q)) == Files(Assemble(ss, ""))
    ensures |Files(Assemble(ss, p + Fence + q))| == |ss|
    ensures Stripped(Assemble(ss, p + Fence + q)) == Gap(|ss|) + (p + Fence + q)
    ensures Explanation(Assemble(ss, p + Fence + q)) == TextOrFallback(p + Fence + q)
  {
    UnclosedPlain(p, q);
    ScanEmpty(TagAt);
    ScanEmpty(FenceAt);
    FilesAssembled(ss, p + Fence + q);
    FilesAssembled(ss, "");
    StrippedAssembled(ss, p + Fence + q);
    ExplainAssembled(ss, p + Fence + q);
  }
}

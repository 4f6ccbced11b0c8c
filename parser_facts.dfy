/**
 * What the completion parser promises about the files and the explanation it extracts
 * from any reply text.
 */
module ParserFacts {
  import opened Wrappers
  import opened Strings
  import opened Patterns
  import opened AiResults

  /**
   * Every collected filename comes from a `[filename: …]` tag of the reply: it is the text
   * after the colon and the whitespace, up to the first `]`. It is never empty, holds no `]`,
   * and starts with whitespace only when the tag held nothing else (then it is the last
   * whitespace character, which `\s*` gives back).
   */
  lemma FilenameIsTagged(raw: string, i: nat) returns (k: nat, w: string)
    requires i < |Filenames(raw)|
    ensures var name := Filenames(raw)[i]; var tag := TagOpen + w + name + "]";
      && name != [] && (forall j :: 0 <= j < |name| ==> name[j] != ']')
      && AllSpace(w) && (!IsSpace(name[0]) || AllSpace(name))
      && k + |tag| <= |raw| && raw[k..k + |tag|] == tag
  {
    ColumnAt(Matches(TagAt, raw), 0, i);
    k := MatchWitness(TagAt, raw, i);
    var t := raw[k..];
    w := TagHit(t);
    SliceOfSuffix(raw, k, TagAt(t).value.len);
  }

  /** A tag matched at the start of `t`: the tag text, its whitespace `w`, and its name. */
  lemma TagHit(t: string) returns (w: string)
    requires TagAt(t).Some?
    ensures var h := TagAt(t).value; var name := h.groups[0];
      && h.len == |TagOpen + w + name + "]"| && t[..h.len] == TagOpen + w + name + "]"
      && name != [] && (forall j :: 0 <= j < |name| ==> name[j] != ']')
      && AllSpace(w) && (!IsSpace(name[0]) || AllSpace(name))
  {
    var h := TagAt(t).value;
    var len, name := h.len, h.groups[0];
    w := t[10..len - 1 - |name|];
    NameInTag(t, len, w, name);
    if IsSpace(name[0]) {
      assert AllSpace(t[10..len - 1]);
      assert name == t[10..len - 1][|w|..];
    }
  }

  /** The name of a tag lies before its closing `]`, so it holds no `]`. */
  lemma NameInTag(t: string, len: nat, w: string, name: string)
    requires len <= |t| && t[..len] == TagOpen + w + name + "]"
    requires forall k :: 10 <= k < len - 1 ==> t[k] != ']'
    ensures forall j :: 0 <= j < |name| ==> name[j] != ']'
  {
    forall j | 0 <= j < |name| ensures name[j] != ']' {
      assert name[j] == t[..len][10 + |w| + j];
    }
  }

  /**
   * Every collected block is a complete fence of the reply: the opening fence, an
   * alphanumeric language tag, a newline, the body, and the first closing fence after it.
   */
  lemma BlockIsFenced(raw: string, i: nat) returns (k: nat)
    requires i < |Blocks(raw)|
    ensures |Blocks(raw)[i]| == 2
    ensures var lang, body := Blocks(raw)[i][0], Blocks(raw)[i][1];
      var block := Fence + lang + "\n" + body + Fence;
      && (forall j :: 0 <= j < |lang| ==> IsAlnum(lang[j]))
      && (forall j :: 0 <= j < |body| ==> !At(body + Fence, j, Fence))
      && k + |block| <= |raw| && raw[k..k + |block|] == block
  {
    k := MatchWitness(FenceAt, raw, i);
    SliceOfSuffix(raw, k, FenceAt(raw[k..]).value.len);
  }

  lemma SliceOfSuffix(raw: string, k: nat, n: nat)
    requires k + n <= |raw|
    ensures raw[k..k + n] == raw[k..][..n]
  {
  }

  /** The `j`-th file of blocks numbered from `i` is made of the `j`-th block, as number `i + j`. */
  lemma {:induction false} PairFromAt(blocks: seq<seq<string>>, names: seq<string>, i: nat, j: nat)
    requires j < |blocks|
    ensures PairFrom(blocks, names, i)[j] == MakeFile(blocks[j], names, i + j)
    decreases j
  {
    if j > 0 {
      PairFromAt(blocks[1..], names, i + 1, j - 1);
    }
  }

  /**
   * One file per complete block, in order: file `i` holds the body of block `i` verbatim and
   * is named by the `i`-th tag, or `snippet{i+1}.{lang}` when there are fewer tags, with the
   * language `text` when the block has none.
   */
  lemma FileOfBlock(raw: string, i: nat)
    requires i < |Blocks(raw)|
    ensures |Files(raw)| == |Blocks(raw)|
    ensures var names, block := Filenames(raw), Blocks(raw)[i];
      var lang := if Group(block, 0) != "" then Group(block, 0) else "text";
      && Files(raw)[i].code == Group(block, 1)
      && Files(raw)[i].filename == (if i < |names| then names[i] else SnippetName(i + 1, lang))
  {
    PairFromAt(Blocks(raw), Filenames(raw), 0, i);
    if i < |Filenames(raw)| {
      NameNonEmpty(raw, i);
    }
  }

  lemma NameNonEmpty(raw: string, i: nat)
    requires i < |Filenames(raw)|
    ensures Filenames(raw)[i] != ""
  {
    var _, _ := FilenameIsTagged(raw, i);
  }

  /** Blocks numbered from `i` only read the names from `i` on, one per block. */
  lemma {:induction false} PairFromReads(blocks: seq<seq<string>>, names: seq<string>, other: seq<string>, i: nat)
    requires forall j :: i <= j < i + |blocks| ==> Lookup(names, j) == Lookup(other, j)
    ensures PairFrom(blocks, names, i) == PairFrom(blocks, other, i)
    decreases |blocks|
  {
    if blocks != [] {
      assert Lookup(names, i) == Lookup(other, i);
      PairFromReads(blocks[1..], names, other, i + 1);
    }
  }

  /** Names beyond the number of blocks are never used: dropping them changes no file. */
  lemma ExtraNamesUnused(blocks: seq<seq<string>>, names: seq<string>)
    requires |blocks| <= |names|
    ensures PairFiles(blocks, names) == PairFiles(blocks, names[..|blocks|])
  {
    PairFromReads(blocks, names, names[..|blocks|], 0);
  }

  /**
   * The explanation is never empty: it is the trimmed leftover text, which then neither starts
   * nor ends with whitespace, or the fallback when nothing but whitespace is left.
   */
  lemma ExplanationNonEmpty(left: string)
    ensures var r := TextOrFallback(left);
      && r != ""
      && (!AllSpace(left) ==> !IsSpace(r[0]) && !IsSpace(r[|r| - 1]))
  {
    if AllSpace(left) {
      assert TextOrFallback(left) == NoExplanation;
    } else {
      assert TextOrFallback(left) == Trim(left);
    }
  }

  /** A failed call gives the error result, and a response without text gives no files and the fallback. */
  lemma OutcomeOfReply(reply: Reply)
    ensures reply.Threw? ==> Outcome(reply) == AiResult(ErrorText, [])
    ensures reply.Responded? && reply.text.None? ==> Outcome(reply) == AiResult(NoExplanation, [])
  {
    if reply.Responded? && reply.text.None? {
      assert Segment(TagAt, "") == [];
      assert Segment(FenceAt, "") == [];
      assert AllSpace("");
    }
  }
}

/**
 * The three JavaScript regular expressions of the core, with the semantics of a global
 * (`/g`) regex: leftmost, non-overlapping matches, found left to right.
 *
 *   FilenameTag  /\[filename:\s*([^\]]+)\]/g       (backend/utils/AiResults.js:30)
 *   CodeFence    /```([a-zA-Z0-9]*)\n([\s\S]*?)```/g (backend/utils/AiResults.js:31)
 *   AiMarker     /@ai/ig                            (backend/server.js:94)
 *
 * `TagAt`, `FenceAt` and `MarkerAt` are the regexes anchored at the start of a text, with
 * the backtracking worked out by hand. The rest of the module is generic in such a
 * `Matcher`: `Segment(m, t)` cuts `t` into kept characters and matches, which is what
 * `String.prototype.replace` and a find-all both see, and `Exec(m, s, from)` is one call
 * of `RegExp.prototype.exec` with `lastIndex == from`.
 */
module Patterns {
  import opened Wrappers
  import opened Strings

  /** A match anchored at the start of a text: its length and its capture groups. */
  datatype Hit = Hit(len: nat, groups: seq<string>)

  /** A regex anchored at the start of the text it is given. */
  type Matcher = string -> Option<Hit>

  /** One piece of a scanned text: a character no match starts at, or a whole match. */
  datatype Piece = Keep(c: char) | Matched(span: string, groups: seq<string>)

  /** What `exec` returns: `match.index`, `match[0].length` and the capture groups. */
  datatype Found = Found(start: nat, len: nat, groups: seq<string>)

  const TagOpen: string := "[filename:"
  const Fence: string := "```"

  /** The literal `lit` occurs in `t` at position `k`. */
  predicate At(t: string, k: nat, lit: string) {
    k + |lit| <= |t| && t[k..k + |lit|] == lit
  }

  /** `t.indexOf(c, from)`. */
  function IndexOf(t: string, from: nat, c: char): (r: Option<nat>)
    requires from <= |t|
    ensures r.Some? ==> from <= r.value < |t| && t[r.value] == c
    ensures r.Some? ==> forall k :: from <= k < r.value ==> t[k] != c
    ensures r.None? ==> forall k :: from <= k < |t| ==> t[k] != c
    decreases |t| - from
  {
    if from == |t| then None
    else if t[from] == c then Some(from)
    else IndexOf(t, from + 1, c)
  }

  /** The first position at or after `from` where a closing fence starts. */
  function FenceFrom(t: string, from: nat): (r: Option<nat>)
    requires from <= |t|
    ensures r.Some? ==> from <= r.value && At(t, r.value, Fence)
    ensures r.Some? ==> forall k :: from <= k < r.value ==> !At(t, k, Fence)
    ensures r.None? ==> forall k :: from <= k <= |t| ==> !At(t, k, Fence)
    decreases |t| - from
  {
    if from + 3 > |t| then None
    else if t[from..from + 3] == Fence then Some(from)
    else FenceFrom(t, from + 1)
  }

  /** How many whitespace characters `\s*` takes greedily from `from`, stopping at `to`. */
  function SpaceRun(t: string, from: nat, to: nat): (n: nat)
    requires from <= to <= |t|
    ensures from + n <= to
    ensures forall k :: from <= k < from + n ==> IsSpace(t[k])
    ensures from + n < to ==> !IsSpace(t[from + n])
    decreases |t| - from
  {
    if from < to && IsSpace(t[from]) then 1 + SpaceRun(t, from + 1, to) else 0
  }

  /** How many characters `[a-zA-Z0-9]*` takes greedily from `from`. */
  function AlnumRun(t: string, from: nat): (n: nat)
    requires from <= |t|
    ensures from + n <= |t|
    ensures forall k :: from <= k < from + n ==> IsAlnum(t[k])
    ensures from + n < |t| ==> !IsAlnum(t[from + n])
    decreases |t| - from
  {
    if from < |t| && IsAlnum(t[from]) then 1 + AlnumRun(t, from + 1) else 0
  }

  /**
   * `/\[filename:\s*([^\]]+)\]/` anchored at the start of `t`. The capture runs up to the
   * first `]`. Greedy `\s*` takes the leading whitespace, except that when everything
   * between the colon and the `]` is whitespace it gives back one character, which is
   * then the whole capture; `[filename:]` does not match.
   */
  function TagAt(t: string): (r: Option<Hit>)
    ensures r.Some? <==> At(t, 0, TagOpen) && IndexOf(t, 10, ']').Some? && IndexOf(t, 10, ']').value > 10
    ensures r.Some? ==> |r.value.groups| == 1 && 11 < r.value.len <= |t|
    ensures r.Some? ==>
      var len := r.value.len;
      var name := r.value.groups[0];
      && t[len - 1] == ']' && (forall k :: 10 <= k < len - 1 ==> t[k] != ']')
      && 0 < |name| <= len - 11
      && t[..len] == TagOpen + t[10..len - 1 - |name|] + name + "]"
      && AllSpace(t[10..len - 1 - |name|])
      && (!IsSpace(name[0]) || AllSpace(t[10..len - 1]))
  {
    if !At(t, 0, TagOpen) then None
    else
      match IndexOf(t, 10, ']')
      case None => None
      case Some(c) =>
        var k := 10 + SpaceRun(t, 10, c);
        if k < c then
          TagShape(t, c, k);
          Some(Hit(c + 1, [t[k..c]]))
        else if 10 < c then
          SpaceSlice(t, 10, c);
          TagShape(t, c, c - 1);
          Some(Hit(c + 1, [t[c - 1..c]]))
        else None
  }

  /** A tag whose name is `t[k..c]`, after the whitespace `t[10..k]`. */
  lemma TagShape(t: string, c: nat, k: nat)
    requires 10 <= k < c < |t| && t[..10] == TagOpen && t[c] == ']'
    requires forall j :: 10 <= j < k ==> IsSpace(t[j])
    ensures t[..c + 1] == TagOpen + t[10..k] + t[k..c] + "]"
    ensures AllSpace(t[10..k])
  {
    assert t[..c + 1] == t[..10] + t[10..k] + t[k..c] + [t[c]];
    SpaceSlice(t, 10, k);
  }

  lemma SpaceSlice(t: string, i: nat, j: nat)
    requires i <= j <= |t| && forall k :: i <= k < j ==> IsSpace(t[k])
    ensures AllSpace(t[i..j])
  {
    forall k | 0 <= k < j - i ensures IsSpace(t[i..j][k]) {
      assert t[i..j][k] == t[i + k];
    }
  }

  /**
   * ```` /```([a-zA-Z0-9]*)\n([\s\S]*?)```/ ```` anchored at the start of `t`. The language
   * tag is the longest alphanumeric run after the opening fence and must be followed by
   * a newline (backtracking cannot help: a shorter run is followed by a letter or digit);
   * the lazy body ends at the first closing fence.
   */
  function FenceAt(t: string): (r: Option<Hit>)
    ensures r.Some? <==>
      At(t, 0, Fence) &&
      var a := 3 + AlnumRun(t, 3);
      a < |t| && t[a] == '\n' && FenceFrom(t, a + 1).Some?
    ensures r.Some? ==> |r.value.groups| == 2 && r.value.len <= |t|
    ensures r.Some? ==>
      var len := r.value.len;
      var lang := r.value.groups[0];
      var body := r.value.groups[1];
      && t[..len] == Fence + lang + "\n" + body + Fence
      && (forall k :: 0 <= k < |lang| ==> IsAlnum(lang[k]))
      && (forall k :: 0 <= k < |body| ==> !At(body + Fence, k, Fence))
  {
    if !At(t, 0, Fence) || 3 + AlnumRun(t, 3) >= |t| then None
    else
      var a := 3 + AlnumRun(t, 3);
      if t[a] != '\n' then None
      else
        match FenceFrom(t, a + 1)
        case None => None
        case Some(c) =>
          var lang, body := t[3..a], t[a + 1..c];
          FenceShape(t, a, c, lang, body);
          Some(Hit(c + 3, [lang, body]))
  }

  lemma FenceShape(t: string, a: nat, c: nat, lang: string, body: string)
    requires 3 <= a < c && c + 3 <= |t| && At(t, 0, Fence) && t[a] == '\n' && At(t, c, Fence)
    requires lang == t[3..a] && body == t[a + 1..c]
    requires forall k :: 3 <= k < a ==> IsAlnum(t[k])
    requires forall k :: a + 1 <= k < c ==> !At(t, k, Fence)
    ensures t[..c + 3] == Fence + lang + "\n" + body + Fence
    ensures forall k :: 0 <= k < |lang| ==> IsAlnum(lang[k])
    ensures forall k :: 0 <= k < |body| ==> !At(body + Fence, k, Fence)
  {
    assert t[..c + 3] == t[..3] + lang + [t[a]] + body + t[c..c + 3];
    forall k | 0 <= k < |body| ensures !At(body + Fence, k, Fence) {
      assert !At(t, a + 1 + k, Fence);
      if k + 3 <= |body + Fence| {
        assert (body + Fence)[k..k + 3] == t[a + 1 + k..a + 1 + k + 3];
      }
    }
    forall k | 0 <= k < |lang| ensures IsAlnum(lang[k]) { assert lang[k] == t[3 + k]; }
  }

  /** `/@ai/i` anchored at the start of `t`: `@` followed by `a` or `A`, then `i` or `I`. */
  function MarkerAt(t: string): (r: Option<Hit>)
    ensures r.Some? <==> |t| >= 3 && t[0] == '@' && (t[1] == 'a' || t[1] == 'A') && (t[2] == 'i' || t[2] == 'I')
    ensures r.Some? ==> r.value == Hit(3, [])
  {
    if |t| >= 3 && t[0] == '@' && (t[1] == 'a' || t[1] == 'A') && (t[2] == 'i' || t[2] == 'I')
    then Some(Hit(3, []))
    else None
  }

  // ---------------------------------------------------------------- pieces of a scanned text

  function PieceText(x: Piece): string {
    match x
    case Keep(c) => [c]
    case Matched(span, _) => span
  }

  /** The text a sequence of pieces was cut from. */
  function Flatten(ps: seq<Piece>): string {
    if ps == [] then [] else PieceText(ps[0]) + Flatten(ps[1..])
  }

  /** The kept characters: what `replace(re, "")` leaves. */
  function Kept(ps: seq<Piece>): string {
    if ps == [] then []
    else (if ps[0].Keep? then [ps[0].c] else []) + Kept(ps[1..])
  }

  /** The capture groups of the matches, in order. */
  function Hits(ps: seq<Piece>): seq<seq<string>> {
    if ps == [] then []
    else (if ps[0].Matched? then [ps[0].groups] else []) + Hits(ps[1..])
  }

  function KeepAll(a: string): (ps: seq<Piece>)
    ensures |ps| == |a| && forall k :: 0 <= k < |a| ==> ps[k] == Keep(a[k])
  {
    seq(|a|, k requires 0 <= k < |a| => Keep(a[k]))
  }

  /** The match `m` reports at the start of `t`, when it is a non-empty prefix of `t`. */
  function HitAt(m: Matcher, t: string): (r: Option<Hit>)
    ensures r.Some? ==> 0 < r.value.len <= |t| && r == m(t)
  {
    if m(t).Some? && 0 < m(t).value.len <= |t| then m(t) else None
  }

  /**
   * The leftmost, non-overlapping scan of `t`: at each position, the match starting there
   * if there is one (and the scan resumes after it), else the character is kept.
   */
  function Segment(m: Matcher, t: string): (ps: seq<Piece>)
    decreases |t|
  {
    if t == [] then []
    else
      match HitAt(m, t)
      case Some(h) => [Matched(t[..h.len], h.groups)] + Segment(m, t[h.len..])
      case None => [Keep(t[0])] + Segment(m, t[1..])
  }

  /** `t.replace(re, "")` for a global regex `re`. */
  function Replace(m: Matcher, t: string): string {
    Kept(Segment(m, t))
  }

  /** The capture groups of every match of a global regex, left to right. */
  function Matches(m: Matcher, t: string): seq<seq<string>> {
    Hits(Segment(m, t))
  }

  // ---------------------------------------------------------------- algebra of pieces

  lemma {:induction false} FlattenAppend(xs: seq<Piece>, ys: seq<Piece>)
    ensures Flatten(xs + ys) == Flatten(xs) + Flatten(ys)
  {
    if xs == [] {
      assert xs + ys == ys;
    } else {
      var h := PieceText(xs[0]);
      assert (xs + ys)[0] == xs[0] && (xs + ys)[1..] == xs[1..] + ys;
      FlattenAppend(xs[1..], ys);
      assert h + (Flatten(xs[1..]) + Flatten(ys)) == (h + Flatten(xs[1..])) + Flatten(ys);
    }
  }

  lemma {:induction false} KeptAppend(xs: seq<Piece>, ys: seq<Piece>)
    ensures Kept(xs + ys) == Kept(xs) + Kept(ys)
  {
    if xs == [] {
      assert xs + ys == ys;
    } else {
      var h := (if xs[0].Keep? then [xs[0].c] else []);
      assert (xs + ys)[0] == xs[0] && (xs + ys)[1..] == xs[1..] + ys;
      KeptAppend(xs[1..], ys);
      assert h + (Kept(xs[1..]) + Kept(ys)) == (h + Kept(xs[1..])) + Kept(ys);
    }
  }

  lemma {:induction false} HitsAppend(xs: seq<Piece>, ys: seq<Piece>)
    ensures Hits(xs + ys) == Hits(xs) + Hits(ys)
  {
    if xs == [] {
      assert xs + ys == ys;
    } else {
      var h := (if xs[0].Matched? then [xs[0].groups] else []);
      assert (xs + ys)[0] == xs[0] && (xs + ys)[1..] == xs[1..] + ys;
      HitsAppend(xs[1..], ys);
      assert h + (Hits(xs[1..]) + Hits(ys)) == (h + Hits(xs[1..])) + Hits(ys);
    }
  }

  lemma PiecesAppend(xs: seq<Piece>, ys: seq<Piece>)
    ensures Flatten(xs + ys) == Flatten(xs) + Flatten(ys)
    ensures Kept(xs + ys) == Kept(xs) + Kept(ys)
    ensures Hits(xs + ys) == Hits(xs) + Hits(ys)
  {
    FlattenAppend(xs, ys);
    KeptAppend(xs, ys);
    HitsAppend(xs, ys);
  }

  lemma {:induction false} KeepAllPieces(a: string)
    ensures Flatten(KeepAll(a)) == a && Kept(KeepAll(a)) == a && Hits(KeepAll(a)) == []
  {
    if a != [] {
      assert KeepAll(a)[1..] == KeepAll(a[1..]);
      KeepAllPieces(a[1..]);
    }
  }

  /** Scanning loses nothing: the pieces put back together are the text. */
  lemma {:induction false} SegmentCovers(m: Matcher, t: string)
    ensures Flatten(Segment(m, t)) == t
    decreases |t|
  {
    if t != [] {
      var ps := Segment(m, t);
      match HitAt(m, t)
      case Some(h) =>
        assert ps[1..] == Segment(m, t[h.len..]);
        SegmentCovers(m, t[h.len..]);
        assert t == t[..h.len] + t[h.len..];
      case None =>
        assert ps[1..] == Segment(m, t[1..]);
        SegmentCovers(m, t[1..]);
        assert t == [t[0]] + t[1..];
    }
  }

  /** A stretch where no match can start is kept character by character. */
  lemma {:induction false} SegmentSkip(m: Matcher, a: string, b: string)
    requires forall k :: 0 <= k < |a| ==> HitAt(m, (a + b)[k..]).None?
    ensures Segment(m, a + b) == KeepAll(a) + Segment(m, b)
    decreases |a|
  {
    if a == [] {
      assert a + b == b;
      assert KeepAll(a) + Segment(m, b) == Segment(m, b);
    } else {
      assert HitAt(m, (a + b)[0..]).None?;
      assert (a + b)[0..] == a + b;
      assert (a + b)[1..] == a[1..] + b;
      forall k | 0 <= k < |a[1..]| ensures HitAt(m, (a[1..] + b)[k..]).None? {
        assert (a[1..] + b)[k..] == (a + b)[k + 1..];
      }
      SegmentSkip(m, a[1..], b);
      assert KeepAll(a) == [Keep(a[0])] + KeepAll(a[1..]);
    }
  }

  /** A text where no match starts anywhere is kept whole. */
  lemma SegmentNoMatch(m: Matcher, t: string)
    requires forall k :: 0 <= k < |t| ==> HitAt(m, t[k..]).None?
    ensures Segment(m, t) == KeepAll(t)
    ensures Replace(m, t) == t && Matches(m, t) == []
  {
    assert t + [] == t;
    SegmentSkip(m, t, []);
    assert Segment(m, []) == [];
    assert KeepAll(t) + [] == KeepAll(t);
    KeepAllPieces(t);
  }

  /** A match at the very start is the first piece, and the scan resumes after it. */
  lemma SegmentHead(m: Matcher, a: string, b: string, gs: seq<string>)
    requires a != [] && HitAt(m, a + b) == Some(Hit(|a|, gs))
    ensures Segment(m, a + b) == [Matched(a, gs)] + Segment(m, b)
  {
    assert (a + b)[..|a|] == a;
    assert (a + b)[|a|..] == b;
  }

  /** A stretch where no match can start is kept by `replace` and adds nothing to the matches. */
  lemma ScanSkip(m: Matcher, a: string, b: string)
    requires forall k :: 0 <= k < |a| ==> HitAt(m, (a + b)[k..]).None?
    ensures Replace(m, a + b) == a + Replace(m, b)
    ensures Matches(m, a + b) == Matches(m, b)
  {
    var ka, ps := KeepAll(a), Segment(m, b);
    SegmentSkip(m, a, b);
    PiecesAppend(ka, ps);
    KeepAllPieces(a);
    assert Replace(m, a + b) == Kept(ka + ps) == a + Kept(ps);
    assert Matches(m, a + b) == Hits(ka + ps) == Hits(ps);
  }

  /** A match at the very start is removed whole by `replace` and is the first match reported. */
  lemma ScanHit(m: Matcher, a: string, b: string, gs: seq<string>)
    requires a != [] && HitAt(m, a + b) == Some(Hit(|a|, gs))
    ensures Replace(m, a + b) == Replace(m, b)
    ensures Matches(m, a + b) == [gs] + Matches(m, b)
  {
    SegmentHead(m, a, b, gs);
    PiecesAppend([Matched(a, gs)], Segment(m, b));
    assert Kept([Matched(a, gs)]) == Kept([]) == [];
    assert Hits([Matched(a, gs)]) == [gs] + Hits([]);
  }

  // ---------------------------------------------------------------- leftmost scan, stated by positions

  /** The piece `x`, sitting at offset `off` of `t`, is what the regex decides there. */
  ghost predicate PieceFits(m: Matcher, t: string, off: nat, x: Piece) {
    off <= |t| &&
    match x
    case Keep(_) => HitAt(m, t[off..]).None?
    case Matched(span, gs) => HitAt(m, t[off..]) == Some(Hit(|span|, gs))
  }

  /**
   * `ps` is a leftmost, non-overlapping scan of `t`: the pieces cover `t`, no match starts
   * at a kept character, and every match piece is exactly the match starting where it sits.
   */
  ghost predicate LeftmostScan(m: Matcher, t: string, ps: seq<Piece>) {
    Flatten(ps) == t &&
    forall j :: 0 <= j < |ps| ==> PieceFits(m, t, |Flatten(ps[..j])|, ps[j])
  }

  /** The offset of piece `j + 1` of `[x] + ps` is that of piece `j` of `ps`, shifted by `x`. */
  lemma ShiftOffset(x: Piece, ps: seq<Piece>, j: nat)
    requires j <= |ps|
    ensures |Flatten(([x] + ps)[..j + 1])| == |PieceText(x)| + |Flatten(ps[..j])|
  {
    assert ([x] + ps)[..j + 1] == [x] + ps[..j];
    PiecesAppend([x], ps[..j]);
    assert Flatten([x]) == PieceText(x) + Flatten([]);
  }

  /** The first piece of a scan, and the text the rest of the scan covers. */
  lemma SegmentFirst(m: Matcher, t: string)
    requires t != []
    ensures var ps := Segment(m, t); var n := |PieceText(ps[0])|;
      0 < n <= |t| && t[..n] == PieceText(ps[0]) && ps[1..] == Segment(m, t[n..])
      && PieceFits(m, t, 0, ps[0])
  {
    assert t[0..] == t;
  }

  /** A piece that fits at the start, followed by a leftmost scan of the rest. */
  lemma LeftmostCons(m: Matcher, t: string, x: Piece, rest: seq<Piece>)
    requires |PieceText(x)| <= |t| && t[..|PieceText(x)|] == PieceText(x)
    requires PieceFits(m, t, 0, x) && LeftmostScan(m, t[|PieceText(x)|..], rest)
    ensures LeftmostScan(m, t, [x] + rest)
  {
    var n := |PieceText(x)|;
    var ps := [x] + rest;
    FlattenCons(x, rest);
    assert t == t[..n] + t[n..];
    forall j | 0 <= j < |ps| ensures PieceFits(m, t, |Flatten(ps[..j])|, ps[j]) {
      if j == 0 {
        assert ps[..0] == [];
      } else {
        ConsFits(m, t, x, rest, j - 1);
      }
    }
  }

  lemma FlattenCons(x: Piece, rest: seq<Piece>)
    ensures Flatten([x] + rest) == PieceText(x) + Flatten(rest)
  {
    PiecesAppend([x], rest);
    assert Flatten([x]) == PieceText(x) + Flatten([]);
  }

  /** A piece that fits the rest of the text fits the whole text one piece further on. */
  lemma ConsFits(m: Matcher, t: string, x: Piece, rest: seq<Piece>, j: nat)
    requires |PieceText(x)| <= |t| && j < |rest|
    requires PieceFits(m, t[|PieceText(x)|..], |Flatten(rest[..j])|, rest[j])
    ensures PieceFits(m, t, |Flatten(([x] + rest)[..j + 1])|, ([x] + rest)[j + 1])
  {
    assert ([x] + rest)[j + 1] == rest[j];
    ShiftOffset(x, rest, j);
    RestFits(m, t, |PieceText(x)|, rest, j);
  }

  /** The scan defined by recursion is a leftmost scan. */
  lemma {:induction false} SegmentIsLeftmost(m: Matcher, t: string)
    ensures LeftmostScan(m, t, Segment(m, t))
    decreases |t|
  {
    var ps := Segment(m, t);
    if t == [] {
    } else {
      SegmentFirst(m, t);
      var n := |PieceText(ps[0])|;
      SegmentIsLeftmost(m, t[n..]);
      LeftmostCons(m, t, ps[0], ps[1..]);
      assert ps == [ps[0]] + ps[1..];
    }
  }

  lemma RestFits(m: Matcher, t: string, n: nat, rest: seq<Piece>, j: nat)
    requires n <= |t| && j < |rest| && PieceFits(m, t[n..], |Flatten(rest[..j])|, rest[j])
    ensures PieceFits(m, t, n + |Flatten(rest[..j])|, rest[j])
  {
    var off := |Flatten(rest[..j])|;
    assert t[n..][off..] == t[n + off..];
  }

  lemma UnshiftFits(m: Matcher, t: string, n: nat, rest: seq<Piece>, j: nat)
    requires n <= |t| && j < |rest| && PieceFits(m, t, n + |Flatten(rest[..j])|, rest[j])
    requires n + |Flatten(rest[..j])| <= |t|
    ensures PieceFits(m, t[n..], |Flatten(rest[..j])|, rest[j])
  {
    var off := |Flatten(rest[..j])|;
    assert t[n..][off..] == t[n + off..];
  }

  /** A leftmost scan is unique: it is the one `Segment` computes. */
  lemma {:induction false} LeftmostScanUnique(m: Matcher, t: string, ps: seq<Piece>)
    requires LeftmostScan(m, t, ps)
    ensures ps == Segment(m, t)
    decreases |ps|
  {
    if ps == [] {
      assert t == [];
    } else {
      var x, rest := ps[0], ps[1..];
      var n := |PieceText(x)|;
      assert ps == [x] + rest;
      PiecesAppend([x], rest);
      assert Flatten([x]) == PieceText(x) + Flatten([]);
      assert t == PieceText(x) + Flatten(rest);
      assert t[..n] == PieceText(x) && t[n..] == Flatten(rest);
      assert ps[..0] == [];
      assert PieceFits(m, t, 0, x);
      assert t[0..] == t;
      forall j | 0 <= j < |rest| ensures PieceFits(m, t[n..], |Flatten(rest[..j])|, rest[j]) {
        assert PieceFits(m, t, |Flatten(ps[..j + 1])|, ps[j + 1]);
        ShiftOffset(x, rest, j);
        assert ps[j + 1] == rest[j];
        UnshiftFits(m, t, n, rest, j);
      }
      LeftmostScanUnique(m, t[n..], rest);
      match x
      case Keep(c) =>
        assert t[1..] == t[n..];
      case Matched(span, gs) =>
    }
  }

  // ---------------------------------------------------------------- exec with lastIndex

  /**
   * `re.exec(s)` with `re.lastIndex == from`: the first position at or after `from` where
   * the regex matches, with that match; `None` is `null`.
   */
  function Exec(m: Matcher, s: string, from: nat): (r: Option<Found>)
    requires from <= |s|
    ensures r.Some? ==> from <= r.value.start && r.value.start + r.value.len <= |s| && 0 < r.value.len
    decreases |s| - from
  {
    match HitAt(m, s[from..])
    case Some(h) => Some(Found(from, h.len, h.groups))
    case None => if from == |s| then None else Exec(m, s, from + 1)
  }

  /**
   * What `exec` promises: a match where it stops, and none between `lastIndex` and there;
   * `null` only when no position from `lastIndex` on matches.
   */
  lemma {:induction false} ExecFinds(m: Matcher, s: string, from: nat)
    requires from <= |s|
    ensures var r := Exec(m, s, from);
      r.Some? ==>
        && HitAt(m, s[r.value.start..]) == Some(Hit(r.value.len, r.value.groups))
        && forall k :: from <= k < r.value.start ==> HitAt(m, s[k..]).None?
    ensures var r := Exec(m, s, from);
      r.None? ==> forall k :: from <= k <= |s| ==> HitAt(m, s[k..]).None?
    decreases |s| - from
  {
    if HitAt(m, s[from..]).None? && from < |s| {
      ExecFinds(m, s, from + 1);
    }
  }

  /** When `exec` returns `null` from `from`, nothing from `from` on is a match. */
  lemma ExecNull(m: Matcher, s: string, from: nat)
    requires from <= |s| && Exec(m, s, from).None?
    ensures Matches(m, s[from..]) == [] && Replace(m, s[from..]) == s[from..]
  {
    ExecFinds(m, s, from);
    forall k | 0 <= k < |s[from..]| ensures HitAt(m, s[from..][k..]).None? {
      assert s[from..][k..] == s[from + k..];
    }
    SegmentNoMatch(m, s[from..]);
  }

  /**
   * One `exec` step advances through the stateless scan: the matches from `from` are the
   * one `exec` found followed by the matches from the new `lastIndex`.
   */
  lemma ExecStep(m: Matcher, s: string, from: nat)
    requires from <= |s| && Exec(m, s, from).Some?
    ensures var f := Exec(m, s, from).value;
      Matches(m, s[from..]) == [f.groups] + Matches(m, s[f.start + f.len..])
  {
    ExecFinds(m, s, from);
    var f := Exec(m, s, from).value;
    var a, b := s[from..f.start], s[f.start..];
    assert s[from..] == a + b;
    forall k | 0 <= k < |a| ensures HitAt(m, (a + b)[k..]).None? {
      assert (a + b)[k..] == s[from + k..];
    }
    var mt, c := b[..f.len], b[f.len..];
    assert b == mt + c && c == s[f.start + f.len..];
    MatchesAfterSkip(m, a, b, mt, c, f.groups);
  }

  /** Skipping characters where nothing matches, then one match, then the rest. */
  lemma MatchesAfterSkip(m: Matcher, a: string, b: string, mt: string, c: string, gs: seq<string>)
    requires b == mt + c && mt != [] && HitAt(m, b) == Some(Hit(|mt|, gs))
    requires forall k :: 0 <= k < |a| ==> HitAt(m, (a + b)[k..]).None?
    ensures Matches(m, a + b) == [gs] + Matches(m, c)
  {
    SegmentSkip(m, a, b);
    SegmentHead(m, mt, c, gs);
    HitsAppend(KeepAll(a), Segment(m, b));
    KeepAllPieces(a);
    assert [] + Hits(Segment(m, b)) == Hits(Segment(m, b));
    HitsAppend([Matched(mt, gs)], Segment(m, c));
    assert Hits([Matched(mt, gs)]) == [gs] + Hits([]) == [gs];
  }

  /** The groups an `exec` loop started with `lastIndex == from` reports, one per call. */
  function ExecAll(m: Matcher, s: string, from: nat): seq<seq<string>>
    requires from <= |s|
    decreases |s| - from
  {
    match Exec(m, s, from)
    case None => []
    case Some(f) => [f.groups] + ExecAll(m, s, f.start + f.len)
  }

  /** One call of the `exec` loop: the match found, then what the loop reports from after it. */
  lemma ExecAllStep(m: Matcher, s: string, from: nat)
    requires from <= |s| && Exec(m, s, from).Some?
    ensures var f := Exec(m, s, from).value; var all := ExecAll(m, s, from);
      all != [] && all[0] == f.groups && all[1..] == ExecAll(m, s, f.start + f.len)
  {
    var f := Exec(m, s, from).value;
    var rest := ExecAll(m, s, f.start + f.len);
    assert ([f.groups] + rest)[1..] == rest;
  }

  /** The `exec` loop reports exactly the matches of the leftmost scan of what is left. */
  lemma {:induction false} ExecAllMatches(m: Matcher, s: string, from: nat)
    requires from <= |s|
    ensures ExecAll(m, s, from) == Matches(m, s[from..])
    decreases |s| - from
  {
    match Exec(m, s, from)
    case None =>
      ExecNull(m, s, from);
    case Some(f) =>
      ExecStep(m, s, from);
      ExecAllMatches(m, s, f.start + f.len);
  }

  /** A match starts somewhere in `t` exactly when the scan finds at least one match. */
  lemma {:induction false} SomeMatchIffHits(m: Matcher, t: string)
    ensures Matches(m, t) != [] <==> exists k :: 0 <= k < |t| && HitAt(m, t[k..]).Some?
    decreases |t|
  {
    if t != [] {
      assert t[0..] == t;
      match HitAt(m, t)
      case Some(h) =>
        PiecesAppend([Matched(t[..h.len], h.groups)], Segment(m, t[h.len..]));
      case None =>
        PiecesAppend([Keep(t[0])], Segment(m, t[1..]));
        SomeMatchIffHits(m, t[1..]);
        if exists k :: 0 <= k < |t| && HitAt(m, t[k..]).Some? {
          var k :| 0 <= k < |t| && HitAt(m, t[k..]).Some?;
          assert t[1..][k - 1..] == t[k..];
        }
        if exists k :: 0 <= k < |t[1..]| && HitAt(m, t[1..][k..]).Some? {
          var k :| 0 <= k < |t[1..]| && HitAt(m, t[1..][k..]).Some?;
          assert t[1..][k..] == t[k + 1..];
        }
    }
  }

  /** Removing the matches changes the text exactly when there is a match to remove. */
  lemma {:induction false} ReplaceChangesIffMatch(m: Matcher, t: string)
    ensures Replace(m, t) == t <==> Matches(m, t) == []
    ensures |Replace(m, t)| <= |t|
    decreases |t|
  {
    if t != [] {
      match HitAt(m, t)
      case Some(h) =>
        PiecesAppend([Matched(t[..h.len], h.groups)], Segment(m, t[h.len..]));
        ReplaceChangesIffMatch(m, t[h.len..]);
      case None =>
        PiecesAppend([Keep(t[0])], Segment(m, t[1..]));
        ReplaceChangesIffMatch(m, t[1..]);
        assert t == [t[0]] + t[1..];
    }
  }

  /** Every match the scan reports is what the matcher says at some position of the text. */
  lemma {:induction false} MatchWitness(m: Matcher, t: string, i: nat) returns (k: nat)
    requires i < |Matches(m, t)|
    ensures k < |t| && HitAt(m, t[k..]).Some? && HitAt(m, t[k..]).value.groups == Matches(m, t)[i]
    decreases |t|
  {
    assert t != [];
    assert t[0..] == t;
    var n := match HitAt(m, t) case Some(h) => h.len case None => 1;
    HitsAppend([Segment(m, t)[0]], Segment(m, t[n..]));
    assert Segment(m, t) == [Segment(m, t)[0]] + Segment(m, t[n..]);
    if HitAt(m, t).Some? && i == 0 {
      k := 0;
    } else {
      var j := if HitAt(m, t).Some? then i - 1 else i;
      var k' := MatchWitness(m, t[n..], j);
      k := n + k';
      assert t[n..][k'..] == t[k..];
    }
  }
}

/**
 * How the relay decides that a chat message asks the assistant (its lower-cased text
 * contains `@ai`) and what it asks (the text with every `@ai`, in any case, removed in one
 * left-to-right pass, then trimmed).
 */
module AiTrigger {
  import opened Wrappers
  import opened Strings
  import opened Patterns

  const Marker: string := "@ai"

  /** `s.includes(sub)`. */
  predicate Contains(s: string, sub: string) {
    exists i :: 0 <= i <= |s| && At(s, i, sub)
  }

  /** `text.toLowerCase().includes("@ai")`. */
  predicate IsAiTrigger(text: string) {
    Contains(Lower(text), Marker)
  }

  /** `text.replace(/@ai/ig, "").trim()`. */
  function Prompt(text: string): string {
    Trim(Replace(MarkerAt, text))
  }

  /** The lower-cased text holds `@ai` at `k` exactly when the marker regex matches there. */
  lemma MarkerAtLower(text: string, k: nat)
    requires k < |text|
    ensures HitAt(MarkerAt, text[k..]).Some? <==> k + 3 <= |text| && Lower(text)[k..k + 3] == Marker
  {
    var t := text[k..];
    if k + 3 <= |text| {
      var l := Lower(text)[k..k + 3];
      assert l[0] == LowerChar(t[0]) && l[1] == LowerChar(t[1]) && l[2] == LowerChar(t[2]);
      LowerCharIs(t[0], '@', '@');
      LowerCharIs(t[1], 'a', 'A');
      LowerCharIs(t[2], 'i', 'I');
      assert l == Marker <==> l[0] == '@' && l[1] == 'a' && l[2] == 'i';
    }
  }

  /** Lower-casing gives the lower-case letter `lo` from it and from its capital `up` only. */
  lemma LowerCharIs(c: char, lo: char, up: char)
    requires (lo == '@' && up == '@') || ('a' <= lo <= 'z' && up as int == lo as int - 32)
    ensures LowerChar(c) == lo <==> c == lo || c == up
  {
  }

  /**
   * With lower-casing as modelled (ASCII letters), the assistant is asked exactly when the
   * marker regex finds a match, that is, exactly when removing the markers changes the text.
   */
  lemma TriggerIffMarker(text: string)
    ensures IsAiTrigger(text) <==> Matches(MarkerAt, text) != []
    ensures IsAiTrigger(text) <==> Replace(MarkerAt, text) != text
  {
    SomeMatchIffHits(MarkerAt, text);
    ReplaceChangesIffMatch(MarkerAt, text);
    if IsAiTrigger(text) {
      var i :| 0 <= i <= |Lower(text)| && At(Lower(text), i, Marker);
      MarkerAtLower(text, i);
    }
    if Matches(MarkerAt, text) != [] {
      var k :| 0 <= k < |text| && HitAt(MarkerAt, text[k..]).Some?;
      MarkerAtLower(text, k);
      assert At(Lower(text), k, Marker);
    }
  }

  /** A text without any marker is sent as it is, trimmed. */
  lemma PromptWithoutMarker(text: string)
    requires !IsAiTrigger(text)
    ensures Prompt(text) == Trim(text)
  {
    TriggerIffMarker(text);
  }

  /** A stretch without `@` is kept as it is. */
  lemma SkipUnmarked(a: string, b: string)
    requires '@' !in a
    ensures Replace(MarkerAt, a + b) == a + Replace(MarkerAt, b)
    ensures Matches(MarkerAt, a + b) == Matches(MarkerAt, b)
  {
    forall k | 0 <= k < |a| ensures HitAt(MarkerAt, (a + b)[k..]).None? {
      assert (a + b)[k..][0] == a[k];
    }
    ScanSkip(MarkerAt, a, b);
  }

  /** The text `a`, one marker `b`, then the text `c`, where neither `a` nor `c` holds an `@`. */
  lemma OneMarker(a: string, b: string, c: string)
    requires '@' !in a && '@' !in c && |b| == 3 && b[0] == '@' && b[1] in "aA" && b[2] in "iI"
    ensures Replace(MarkerAt, a + b + c) == a + c
    ensures Matches(MarkerAt, a + b + c) == [[]]
  {
    assert a + b + c == a + (b + c);
    SkipUnmarked(a, b + c);
    assert (b + c)[..3] == b;
    ScanHit(MarkerAt, b, c, []);
    assert c + [] == c;
    SkipUnmarked(c, []);
    assert Segment(MarkerAt, []) == [];
  }

  /** One marker between two stretches without `@`: it gives the assistant the two stretches, trimmed. */
  lemma PromptOneMarker(a: string, b: string, c: string)
    requires '@' !in a && '@' !in c && |b| == 3 && b[0] == '@' && b[1] in "aA" && b[2] in "iI"
    ensures IsAiTrigger(a + b + c) && Prompt(a + b + c) == Trim(a + c)
  {
    OneMarker(a, b, c);
    TriggerIffMarker(a + b + c);
  }

  /** `"please @AI help"` asks `"please  help"`: the spaces around the marker both stay. */
  lemma PromptKeepsInnerSpaces()
    ensures IsAiTrigger("please @AI help")
    ensures Prompt("please @AI help") == "please  help"
  {
    InnerSpacesScan();
    InnerSpacesTrim();
  }

  lemma InnerSpacesScan()
    ensures IsAiTrigger("please @AI help") && Prompt("please @AI help") == Trim("please  help")
  {
    assert "please @AI help" == "please " + "@AI" + " help" && "please " + " help" == "please  help";
    PromptOneMarker("please ", "@AI", " help");
  }

  lemma InnerSpacesTrim()
    ensures Trim("please  help") == "please  help"
  {
    TrimNoSpaceEnds("please  help");
  }

  /** A text that neither starts nor ends with whitespace is its own trim. */
  lemma TrimNoSpaceEnds(s: string)
    requires s != [] && !IsSpace(s[0]) && !IsSpace(s[|s| - 1])
    ensures Trim(s) == s
  {
  }

  /**
   * An `@` right before a marker, then a stretch without `@`: the lone `@` is kept. The
   * markers are removed in one pass, so with `"@@aiai"` the `@` and the `ai` around the
   * removed marker join into a new `@ai`, which is sent on.
   */
  lemma PromptAfterLoneAt(a: string, b: string, c: string)
    requires a == "@" && '@' !in c && |b| == 3 && b[0] == '@' && b[1] in "aA" && b[2] in "iI"
    ensures IsAiTrigger(a + b + c) && Prompt(a + b + c) == Trim(a + c)
  {
    assert HitAt(MarkerAt, (a + (b + c))[0..]).None? by { assert (a + (b + c))[0..][1] == '@'; }
    ScanSkip(MarkerAt, a, b + c);
    OneMarker([], b, c);
    assert [] + b + c == b + c && [] + c == c;
    assert a + b + c == a + (b + c);
    TriggerIffMarker(a + b + c);
  }
}

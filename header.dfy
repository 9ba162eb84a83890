/** Recognising a scene header in a marker comment: the anchored pattern
    `([A-Z0-9]{2,5}) -`, and the description that follows the header. */
module SceneHeader {
  import opened Text

  /** A character of the class `[A-Z0-9]`. */
  predicate IsCodeChar(c: char) {
    'A' <= c <= 'Z' || '0' <= c <= '9'
  }

  /** The pattern matches the start of `s` with a scene code of length `n`:
      `n` code characters followed by a space and a hyphen. */
  predicate HeaderAt(s: string, n: nat) {
    2 <= n <= 5 && n + 2 <= |s| && (forall k | 0 <= k < n :: IsCodeChar(s[k]))
    && s[n] == ' ' && s[n + 1] == '-'
  }

  /** `re.match(r"([A-Z0-9]{2,5}) -", comment)` and its group 1. The greedy
      repetition tries 5, 4, 3 and then 2 code characters. */
  function MatchSceneHeader(comment: string): Option<string> {
    if HeaderAt(comment, 5) then Some(comment[..5])
    else if HeaderAt(comment, 4) then Some(comment[..4])
    else if HeaderAt(comment, 3) then Some(comment[..3])
    else if HeaderAt(comment, 2) then Some(comment[..2])
    else None
  }

  /** The pattern matches exactly when some length of code fits, and since a
      space is not a code character at most one length can fit, so the scene
      code is determined by the comment alone: two to five code characters. */
  lemma MatchSceneHeaderSpec(comment: string)
    ensures var code := MatchSceneHeader(comment);
      (code.Some? <==> exists n :: HeaderAt(comment, n))
      && (forall n: nat | HeaderAt(comment, n) :: code == Some(comment[..n]))
      && (code.Some? ==> 2 <= |code.value| <= 5 && forall k | 0 <= k < |code.value| :: IsCodeChar(code.value[k]))
  {}

  /** What separates a scene code from its description. */
  const HeaderSeparator: string := " - "

  /** `comment.split(" - ")[1] if " - " in comment else ""`. */
  function HeaderDescription(comment: string): string {
    SecondPieceOr(comment, HeaderSeparator)
  }

  /** The description is empty when the comment holds no `" - "`; otherwise it
      is the text after the first `" - "` up to the next `" - "` that starts
      after it, or the end: not all that follows the first one. */
  lemma HeaderDescriptionSpec(comment: string)
    ensures !Contains(comment, HeaderSeparator) ==> HeaderDescription(comment) == []
    ensures Contains(comment, HeaderSeparator) ==>
      Find(comment, HeaderSeparator).Some?
      && var i, d := Find(comment, HeaderSeparator).value, HeaderDescription(comment);
         StartsWith(comment[i + 3..], d) && !Contains(d, HeaderSeparator)
         && (i + 3 + |d| == |comment| || OccursAt(comment, HeaderSeparator, i + 3 + |d|))
    ensures Find(comment, HeaderSeparator).Some? ==>
      var i, d := Find(comment, HeaderSeparator).value, HeaderDescription(comment);
      forall q | i + 3 <= q < i + 3 + |d| :: !OccursAt(comment, HeaderSeparator, q)
  {
    SecondPieceOrSpec(comment, HeaderSeparator);
  }

  /** The description never holds a tab when the comment does not. */
  lemma HeaderDescriptionKeepsOut(comment: string, c: char)
    requires c !in comment
    ensures c !in HeaderDescription(comment)
  {
    SecondPieceOrKeepsOut(comment, HeaderSeparator, c);
  }
}

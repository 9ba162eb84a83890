/** Worked examples of the marker processor on concrete values. */
module MarkerExamples {
  import opened Text
  import opened Decimal
  import opened SceneHeader
  import opened Markers

  /** `zfill(4)` pads to four characters and keeps the minus sign in front. */
  lemma ShotTextExamples()
    ensures ShotText(10) == "0010"
    ensures ShotText(-5) == "-005"
    ensures ShotText(12345) == "12345"
  {
    assert NatToString(10) == "10";
    assert NatToString(5) == "5";
    assert NatToString(12345) == "12345";
  }

  /** The episode part is dropped when the episode is empty. */
  lemma BaseIdExamples()
    ensures BaseId(Config("ABC", "101", false, 10, 10), "SC1", 10) == "ABC_101_SC1_0010"
    ensures BaseId(Config("ABC", "", false, 10, 10), "SC1", 20) == "ABC_SC1_0020"
  {
    ShotTextExamples();
    assert NatToString(20) == "20";
  }

  /** The pattern is anchored, upper case only, and takes at most five code
      characters before `" -"`. */
  lemma HeaderExamples()
    ensures MatchSceneHeader("SC1 - Opening") == Some("SC1")
    ensures MatchSceneHeader("A1 -x") == Some("A1")
    ensures MatchSceneHeader("sc1 - Opening") == None
    ensures MatchSceneHeader("ABCDEF - Opening") == None
    ensures MatchSceneHeader(" SC1 - Opening") == None
  {
    var a := "SC1 - Opening";
    assert a[3] == ' ' && a[4] == '-' && !IsCodeChar(a[3]);
    assert HeaderAt(a, 3) && a[..3] == "SC1";
    var b := "A1 -x";
    assert b[2] == ' ' && b[3] == '-' && !IsCodeChar(b[2]) && !IsCodeChar(b[3]);
    assert HeaderAt(b, 2) && b[..2] == "A1";
    var c := "sc1 - Opening";
    assert !IsCodeChar(c[0]);
    var d := "ABCDEF - Opening";
    assert d[5] == 'F' && d[4] == 'E' && d[3] == 'D' && d[2] == 'C';
    var e := " SC1 - Opening";
    assert !IsCodeChar(e[0]);
  }

  /** The search from `k` stops at `i` when `sep` starts there and no
      position between `k` and `i` holds the first character of `sep`. */
  lemma FindFromAt(s: string, sep: string, k: nat, i: nat)
    requires |sep| > 0 && k <= i && i + |sep| <= |s| && s[i..i + |sep|] == sep
    requires forall q | k <= q < i :: s[q] != sep[0]
    ensures FindFrom(s, sep, k) == Some(i)
  {
    FindFromSpec(s, sep, k);
    forall t | 0 <= t < |sep|
      ensures s[i + t] == sep[t]
    {
      assert s[i..i + |sep|][t] == s[i + t];
    }
    assert OccursAt(s, sep, i);
    forall q | k <= q < i
      ensures !OccursAt(s, sep, q)
    {
      assert s[q + 0] != sep[0];
    }
  }

  const Comment: string := "SC1 - Car - Night"

  lemma CommentFirstSeparator()
    ensures Find(Comment, " - ") == Some(3)
  {
    var c := Comment;
    assert c[3..6] == " - ";
    assert c[0] == 'S' && c[1] == 'C' && c[2] == '1';
    FindFromAt(c, " - ", 0, 3);
  }

  lemma CommentSecondPiece()
    ensures PieceFrom(Comment, " - ", 6) == "Car"
  {
    var c := Comment;
    assert c[9..12] == " - ";
    assert c[6] == 'C' && c[7] == 'a' && c[8] == 'r';
    FindFromAt(c, " - ", 6, 9);
    assert c[6..9] == "Car";
  }

  /** Only the text between the first and the second `" - "` becomes the
      description. */
  lemma DescriptionExample()
    ensures HeaderDescription(Comment) == "Car"
  {
    CommentFirstSeparator();
    CommentSecondPiece();
  }
}

/** What a run of the marker processor promises, stated line by line and
    shot by shot, independently of the loop, and proved about `Run`. */
module MarkerProperties {
  import opened Text
  import opened Decimal
  import opened SceneHeader
  import opened Markers

  // ---- which lines are kept ----

  /** The scene code a line's comment opens with, if any. */
  function HeaderOf(line: string): Option<string> {
    MatchSceneHeader(CommentOf(Split(line, '\t')))
  }

  predicate IsHeader(line: string) {
    !IsBlank(line) && HeaderOf(line).Some?
  }

  /** Some line before line `n` is a scene header. */
  predicate SceneOpen(lines: seq<string>, n: nat)
    requires n <= |lines|
  {
    exists k | 0 <= k < n :: IsHeader(lines[k])
  }

  /** Line `k` gets an ID: it is not blank, and it is a header or comes after one. */
  predicate IsKept(lines: seq<string>, k: nat)
    requires k < |lines|
  {
    !IsBlank(lines[k]) && (HeaderOf(lines[k]).Some? || SceneOpen(lines, k))
  }

  /** A line without a field 4. */
  predicate IsShort(line: string) {
    |Split(line, '\t')| <= 4
  }

  // ---- what each shot is given ----

  function Scenes(shots: seq<Shot>): set<string> {
    set k | 0 <= k < |shots| :: shots[k].scene
  }

  function Last(shots: seq<Shot>): Shot
    requires shots != []
  {
    shots[|shots| - 1]
  }

  /** Shot `s`, emitted for `line` after the shots `prev`: a header takes its
      scene code and the description between the first two `" - "`, and starts
      at the starting shot unless its scene has been seen before; any other
      line continues the previous shot's scene with the whole comment as
      description; in every case but the first sighting of a scene the number
      is the previous shot's plus the increment, and the text is the line with
      field 4 replaced by the ID. */
  predicate Rule(cfg: Config, prev: seq<Shot>, s: Shot, line: string) {
    var parts := Split(line, '\t');
    var comment := CommentOf(parts);
    !IsBlank(line) && |parts| > 4
    && (match MatchSceneHeader(comment)
        case Some(code) =>
          s.scene == code && s.description == HeaderDescription(comment)
          && s.number == if prev != [] && code in Scenes(prev) then Last(prev).number + cfg.increment else cfg.startingShot
        case None =>
          prev != [] && s.scene == Last(prev).scene && s.description == comment
          && s.number == Last(prev).number + cfg.increment)
    && s.text == Join(parts[4 := VfxId(cfg, s.scene, s.number, s.description)], '\t')
  }

  /** The loop's state agrees with the shots emitted so far: the seen scenes
      are theirs, the current scene is the last one's and the counter is one
      increment past the last number, or at the starting shot before any. */
  predicate Consistent(cfg: Config, st: State) {
    st.seen == Scenes(st.emitted)
    && (st.emitted == [] ==> st.scene == None && st.shot == cfg.startingShot)
    && (st.emitted != [] ==>
          st.scene == Some(Last(st.emitted).scene) && st.shot == Last(st.emitted).number + cfg.increment)
  }

  /** The shots come from the first `n` lines, in input order. */
  predicate Ordered(shots: seq<Shot>, n: nat) {
    (forall j | 0 <= j < |shots| :: shots[j].line < n)
    && (forall j1, j2 | 0 <= j1 < j2 < |shots| :: shots[j1].line < shots[j2].line)
  }

  /** Among the first `n` lines, exactly the kept ones have a shot. */
  predicate Covers(lines: seq<string>, n: nat, shots: seq<Shot>)
    requires n <= |lines|
  {
    forall k | 0 <= k < n :: IsKept(lines, k) <==> exists j | 0 <= j < |shots| :: shots[j].line == k
  }

  /** Every shot follows `Rule` for its own line and the shots before it. */
  predicate Follows(cfg: Config, lines: seq<string>, shots: seq<Shot>) {
    forall j | 0 <= j < |shots| :: shots[j].line < |lines| && Rule(cfg, shots[..j], shots[j], lines[shots[j].line])
  }

  /** Everything a successful run over the first `n` lines promises. */
  predicate Lawful(cfg: Config, lines: seq<string>, n: nat, st: State)
    requires n <= |lines|
  {
    Consistent(cfg, st)
    && (st.scene.Some? <==> SceneOpen(lines, n))
    && Ordered(st.emitted, n)
    && Covers(lines, n, st.emitted)
    && Follows(cfg, lines, st.emitted)
  }

  // ---- the induction ----

  lemma ScenesAppend(shots: seq<Shot>, s: Shot)
    ensures Scenes(shots + [s]) == Scenes(shots) + {s.scene}
  {
    var t := shots + [s];
    assert t[|shots|].scene == s.scene;
    forall x | x in Scenes(shots)
      ensures x in Scenes(t)
    {
      var k :| 0 <= k < |shots| && shots[k].scene == x;
      assert t[k] == shots[k];
    }
  }

  lemma SceneOpenNext(lines: seq<string>, n: nat)
    requires n < |lines|
    ensures SceneOpen(lines, n + 1) <==> SceneOpen(lines, n) || IsHeader(lines[n])
  {
    if SceneOpen(lines, n + 1) && !IsHeader(lines[n]) {
      var k :| 0 <= k < n + 1 && IsHeader(lines[k]);
      assert k != n;
      assert 0 <= k < n && IsHeader(lines[k]);
    }
    if SceneOpen(lines, n) {
      var k :| 0 <= k < n && IsHeader(lines[k]);
      assert 0 <= k < n + 1 && IsHeader(lines[k]);
    }
    if IsHeader(lines[n]) {
      assert 0 <= n < n + 1 && IsHeader(lines[n]);
    }
  }

  lemma InitialLawful(cfg: Config, lines: seq<string>)
    ensures Lawful(cfg, lines, 0, Initial(cfg))
  {}

  /** A line the loop skips changes nothing the run promises. */
  lemma SkipLawful(cfg: Config, lines: seq<string>, n: nat, st: State)
    requires n < |lines| && Lawful(cfg, lines, n, st)
    requires IsBlank(lines[n]) || (HeaderOf(lines[n]).None? && st.scene.None?)
    ensures Lawful(cfg, lines, n + 1, st)
  {
    SceneOpenNext(lines, n);
    SkipCovers(lines, n, st.emitted);
  }

  lemma SkipCovers(lines: seq<string>, n: nat, shots: seq<Shot>)
    requires n < |lines| && !IsKept(lines, n)
    requires Covers(lines, n, shots) && Ordered(shots, n)
    ensures Covers(lines, n + 1, shots) && Ordered(shots, n + 1)
  {
    forall k | 0 <= k < n + 1
      ensures IsKept(lines, k) <==> exists j | 0 <= j < |shots| :: shots[j].line == k
    {
    }
  }

  /** A line the loop keeps adds one shot that follows `Rule`. */
  lemma KeepLawful(cfg: Config, lines: seq<string>, n: nat, st: State, s: Shot)
    requires n < |lines| && Lawful(cfg, lines, n, st)
    requires s.line == n && IsKept(lines, n) && Rule(cfg, st.emitted, s, lines[n])
    ensures Lawful(cfg, lines, n + 1, State(Some(s.scene), st.seen + {s.scene}, s.number + cfg.increment, st.emitted + [s]))
  {
    var shots := st.emitted;
    var t := shots + [s];
    SceneOpenNext(lines, n);
    ScenesAppend(shots, s);
    RulesAppend(cfg, lines, shots, s);
    KeptAppend(lines, n, shots, s);
    OrderedAppend(shots, n, s);
    assert Last(t) == s;
  }

  lemma OrderedAppend(shots: seq<Shot>, n: nat, s: Shot)
    requires Ordered(shots, n) && s.line == n
    ensures Ordered(shots + [s], n + 1)
  {}

  lemma RulesAppend(cfg: Config, lines: seq<string>, shots: seq<Shot>, s: Shot)
    requires Follows(cfg, lines, shots)
    requires s.line < |lines| && Rule(cfg, shots, s, lines[s.line])
    ensures Follows(cfg, lines, shots + [s])
  {
    var t := shots + [s];
    forall j | 0 <= j < |t|
      ensures t[j].line < |lines| && Rule(cfg, t[..j], t[j], lines[t[j].line])
    {
      if j < |shots| {
        assert t[..j] == shots[..j];
      } else {
        assert t[..j] == shots;
      }
    }
  }

  lemma KeptAppend(lines: seq<string>, n: nat, shots: seq<Shot>, s: Shot)
    requires n < |lines| && IsKept(lines, n) && s.line == n
    requires Covers(lines, n, shots) && Ordered(shots, n)
    ensures Covers(lines, n + 1, shots + [s])
  {
    var t := shots + [s];
    forall k | 0 <= k < n + 1
      ensures IsKept(lines, k) <==> exists j | 0 <= j < |t| :: t[j].line == k
    {
      if k == n {
        assert t[|shots|].line == n;
      } else {
        if IsKept(lines, k) {
          var j :| 0 <= j < |shots| && shots[j].line == k;
          assert t[j] == shots[j];
        }
        if exists j | 0 <= j < |t| :: t[j].line == k {
          var j :| 0 <= j < |t| && t[j].line == k;
          assert j < |shots| && shots[j] == t[j];
        }
      }
    }
  }

  /** The new shot of a kept line follows `Rule`. */
  lemma KeepRule(cfg: Config, lines: seq<string>, n: nat, st: State, scene: string, shot: int, description: string)
    requires n < |lines| && Lawful(cfg, lines, n, st)
    requires !IsBlank(lines[n]) && Settles(cfg, st, lines[n], scene, shot, description)
    requires !IsShort(lines[n])
    ensures var parts := Split(lines[n], '\t');
      Rule(cfg, st.emitted, Shot(n, scene, shot, description, Join(parts[4 := VfxId(cfg, scene, shot, description)], '\t')), lines[n])
  {
    var comment := CommentOf(Split(lines[n], '\t'));
    if MatchSceneHeader(comment).Some? {
      var code := MatchSceneHeader(comment).value;
      if code in st.seen {
        assert st.emitted != [];
      }
    }
  }

  /** Every successful run over the first `n` lines keeps the promises of `Lawful`. */
  lemma {:induction false} RunLawful(cfg: Config, lines: seq<string>, n: nat)
    requires n <= |lines| && Run(cfg, lines[..n]).Ok?
    ensures Lawful(cfg, lines, n, Run(cfg, lines[..n]).value)
  {
    if n == 0 {
      assert lines[..0] == [];
      InitialLawful(cfg, lines);
    } else {
      var m := n - 1;
      assert lines[..n][..m] == lines[..m];
      RunLawful(cfg, lines, m);
      RunNext(cfg, lines, m);
      var st := Run(cfg, lines[..m]).value;
      StepLawful(cfg, lines, m, st);
    }
  }

  lemma StepLawful(cfg: Config, lines: seq<string>, n: nat, st: State)
    requires n < |lines| && Lawful(cfg, lines, n, st)
    requires Step(cfg, st, n, lines[n]).Ok?
    ensures Lawful(cfg, lines, n + 1, Step(cfg, st, n, lines[n]).value)
  {
    var line := lines[n];
    var comment := CommentOf(Split(line, '\t'));
    if IsBlank(line) || (HeaderOf(line).None? && st.scene.None?) {
      StepSkipped(cfg, st, n, line);
      SkipLawful(cfg, lines, n, st);
    } else {
      var scene, shot, description;
      if HeaderOf(line).Some? {
        scene := HeaderOf(line).value;
        shot := if scene in st.seen then st.shot else cfg.startingShot;
        description := HeaderDescription(comment);
      } else {
        scene := st.scene.value;
        shot := st.shot;
        description := comment;
      }
      StepKept(cfg, st, n, line, scene, shot, description);
      var parts := Split(line, '\t');
      var s := Shot(n, scene, shot, description, Join(parts[4 := VfxId(cfg, scene, shot, description)], '\t'));
      KeepRule(cfg, lines, n, st, scene, shot, description);
      KeepLawful(cfg, lines, n, st, s);
    }
  }

  // ---- failure ----

  /** Kept lines of a successful run all have a field 4. */
  lemma KeptNotShort(cfg: Config, lines: seq<string>, n: nat, st: State, k: nat)
    requires n <= |lines| && Lawful(cfg, lines, n, st) && k < n && IsKept(lines, k)
    ensures !IsShort(lines[k])
  {
    var j :| 0 <= j < |st.emitted| && st.emitted[j].line == k;
    assert Rule(cfg, st.emitted[..j], st.emitted[j], lines[k]);
  }

  /** Line `k` is kept but has no field 4. */
  predicate ShortKept(lines: seq<string>, k: nat)
    requires k < |lines|
  {
    IsKept(lines, k) && IsShort(lines[k])
  }

  /** Line `k` is the first kept line without a field 4. */
  predicate FailsAt(lines: seq<string>, k: nat) {
    k < |lines| && ShortKept(lines, k) && forall q | 0 <= q < k :: !ShortKept(lines, q)
  }

  /** A run fails on the first kept line without a field 4. */
  lemma {:induction false} RunFails(cfg: Config, lines: seq<string>, n: nat)
    requires n <= |lines| && Run(cfg, lines[..n]).Err?
    ensures Run(cfg, lines[..n]).error.line < n && FailsAt(lines, Run(cfg, lines[..n]).error.line)
  {
    var m := n - 1;
    assert lines[..n][..m] == lines[..m];
    if Run(cfg, lines[..m]).Err? {
      RunFails(cfg, lines, m);
    } else {
      RunLawful(cfg, lines, m);
      RunNext(cfg, lines, m);
      var st := Run(cfg, lines[..m]).value;
      StepFails(cfg, lines, m, st);
      forall q | 0 <= q < m
        ensures !ShortKept(lines, q)
      {
        if IsKept(lines, q) {
          KeptNotShort(cfg, lines, m, st, q);
        }
      }
    }
  }

  lemma StepFails(cfg: Config, lines: seq<string>, n: nat, st: State)
    requires n < |lines| && Lawful(cfg, lines, n, st)
    requires Step(cfg, st, n, lines[n]).Err?
    ensures Step(cfg, st, n, lines[n]).error.line == n && IsKept(lines, n) && IsShort(lines[n])
  {}

  /** Every kept line of a successful run over all the lines has a field 4. */
  lemma RunSucceeds(cfg: Config, lines: seq<string>)
    requires Run(cfg, lines).Ok?
    ensures forall k | 0 <= k < |lines| :: !ShortKept(lines, k)
  {
    assert lines[..|lines|] == lines;
    RunLawful(cfg, lines, |lines|);
    forall k | 0 <= k < |lines| && IsKept(lines, k)
      ensures !IsShort(lines[k])
    {
      KeptNotShort(cfg, lines, |lines|, Run(cfg, lines).value, k);
    }
  }

  // ---- the whole call ----

  /** A run over all the lines fails exactly when some kept line has no
      field 4, and then names the first such line. */
  lemma RunFailsFirst(cfg: Config, lines: seq<string>)
    ensures Run(cfg, lines).Err? <==> exists k | 0 <= k < |lines| :: ShortKept(lines, k)
    ensures Run(cfg, lines).Err? ==> FailsAt(lines, Run(cfg, lines).error.line)
  {
    assert lines[..|lines|] == lines;
    if Run(cfg, lines).Err? {
      RunFails(cfg, lines, |lines|);
      var k := Run(cfg, lines).error.line;
      assert ShortKept(lines, k);
    } else {
      RunSucceeds(cfg, lines);
    }
  }

  /** `process_markers` raises its `IndexError` exactly when some kept line
      has no field 4. */
  lemma ProcessedFails(cfg: Config, content: string)
    ensures Processed(cfg, content).Err? <==> exists k | 0 <= k < |Split(content, '\n')| :: ShortKept(Split(content, '\n'), k)
  {
    ProcessedRun(cfg, content);
    RunFailsFirst(cfg, Split(content, '\n'));
  }

  /** The line `process_markers` reports is the first kept line without a field 4. */
  lemma ProcessedFailsAt(cfg: Config, content: string)
    requires Processed(cfg, content).Err?
    ensures FailsAt(Split(content, '\n'), Processed(cfg, content).error.line)
  {
    ProcessedRun(cfg, content);
    RunFailsFirst(cfg, Split(content, '\n'));
  }

  /** On success the output is the emitted lines joined with newlines, the
      summary counts them, and they keep every promise of `Lawful`. */
  lemma ProcessedLawful(cfg: Config, content: string)
    requires Processed(cfg, content).Ok?
    ensures var lines := Split(content, '\n');
      Run(cfg, lines).Ok? && Lawful(cfg, lines, |lines|, Run(cfg, lines).value)
      && var shots := Run(cfg, lines).value.emitted;
      Processed(cfg, content).value == Report(Join(Texts(shots), '\n'), "Total Shots Processed: " + NatToString(|shots|))
  {
    var lines := Split(content, '\n');
    assert lines[..|lines|] == lines;
    RunLawful(cfg, lines, |lines|);
  }

  /** A marker list without any scene header gives no output at all and
      leaves the counter at the starting shot. */
  lemma NoHeaderNoShots(cfg: Config, lines: seq<string>)
    requires forall k | 0 <= k < |lines| :: !IsHeader(lines[k])
    ensures Run(cfg, lines) == Ok(Initial(cfg))
  {
    assert lines[..|lines|] == lines;
    if Run(cfg, lines).Err? {
      RunFails(cfg, lines, |lines|);
    } else {
      RunLawful(cfg, lines, |lines|);
    }
  }

  // ---- the shot number ----

  /** The shot is the first of its scene: its line is a header naming a
      scene none of the earlier shots had. */
  predicate FirstSighting(shots: seq<Shot>, j: nat, line: string)
    requires j < |shots|
  {
    HeaderOf(line).Some? && HeaderOf(line).value !in Scenes(shots[..j])
  }

  /** One counter for all scenes: the first shot of a scene gets the starting
      shot, every other shot the previous shot's number plus the increment. */
  lemma ShotNumbers(cfg: Config, lines: seq<string>, shots: seq<Shot>)
    requires Follows(cfg, lines, shots)
    ensures forall j | 0 <= j < |shots| ::
      shots[j].number == if FirstSighting(shots, j, lines[shots[j].line]) then cfg.startingShot
                         else shots[j - 1].number + cfg.increment
  {
    forall j | 0 <= j < |shots|
      ensures shots[j].number == if FirstSighting(shots, j, lines[shots[j].line]) then cfg.startingShot
                                 else shots[j - 1].number + cfg.increment
    {
      ShotNumber(cfg, shots[..j], shots[j], lines[shots[j].line]);
      if j > 0 {
        assert Last(shots[..j]) == shots[j - 1];
      }
      assert shots[..j] == shots[..j + 1][..j];
    }
  }

  lemma ShotNumber(cfg: Config, prev: seq<Shot>, s: Shot, line: string)
    requires Rule(cfg, prev, s, line)
    ensures s.number == if HeaderOf(line).Some? && HeaderOf(line).value !in Scenes(prev) then cfg.startingShot
                        else Last(prev).number + cfg.increment
  {}

  /** The first shot of a run is always the first of its scene. */
  lemma FirstShotStarts(cfg: Config, lines: seq<string>, shots: seq<Shot>)
    requires Follows(cfg, lines, shots) && shots != []
    ensures FirstSighting(shots, 0, lines[shots[0].line]) && shots[0].number == cfg.startingShot
  {
    assert Rule(cfg, shots[..0], shots[0], lines[shots[0].line]);
    assert shots[..0] == [];
  }

  // ---- scene codes ----

  predicate IsCode(s: string) {
    2 <= |s| <= 5 && forall k | 0 <= k < |s| :: IsCodeChar(s[k])
  }

  /** Every shot's scene is a code some header named: two to five characters
      of `[A-Z0-9]`. */
  lemma {:induction false} SceneIsCode(cfg: Config, lines: seq<string>, shots: seq<Shot>, j: nat)
    requires Follows(cfg, lines, shots) && j < |shots|
    ensures IsCode(shots[j].scene)
  {
    var line := lines[shots[j].line];
    assert Rule(cfg, shots[..j], shots[j], line);
    var comment := CommentOf(Split(line, '\t'));
    MatchSceneHeaderSpec(comment);
    if MatchSceneHeader(comment).None? {
      assert Last(shots[..j]) == shots[j - 1];
      SceneIsCode(cfg, lines, shots, j - 1);
    }
  }

  lemma CodeKeepsOut(s: string, c: char)
    requires IsCode(s) && !IsCodeChar(c)
    ensures c !in s
  {}

  // ---- the fields of an emitted line ----

  lemma ShotTextKeepsOut(shot: int, c: char)
    requires !IsDigit(c) && c != '-'
    ensures c !in ShotText(shot)
  {
    ShotTextShape(shot);
    var r := ShotText(shot);
    if shot < 0 {
      assert r == [r[0]] + r[1..];
    }
  }

  /** The ID holds no character that is in none of its parts. */
  lemma VfxIdKeepsOut(cfg: Config, scene: string, shot: int, description: string, c: char)
    requires c !in cfg.show && c !in cfg.episode && c !in scene && c !in description
    requires !IsDigit(c) && c != '-' && c != '_' && c != ' '
    ensures c !in VfxId(cfg, scene, shot, description)
  {
    ShotTextKeepsOut(shot, c);
  }

  /** The description of a shot never holds a tab. */
  lemma DescriptionKeepsOut(cfg: Config, prev: seq<Shot>, s: Shot, line: string)
    requires Rule(cfg, prev, s, line)
    ensures '\t' !in s.description
  {
    var parts := Split(line, '\t');
    SplitSpec(line, '\t');
    StripKeepsOut(parts[4], '\t');
    var comment := CommentOf(parts);
    if MatchSceneHeader(comment).Some? {
      HeaderDescriptionKeepsOut(comment, '\t');
    }
  }

  /** An emitted line has as many tab fields as its input line; field 4 is
      the ID and every other field is unchanged. */
  lemma ShotFields(cfg: Config, prev: seq<Shot>, s: Shot, line: string)
    requires Rule(cfg, prev, s, line) && IsCode(s.scene)
    requires '\t' !in cfg.show && '\t' !in cfg.episode
    ensures var parts := Split(line, '\t');
      var out := Split(s.text, '\t');
      |out| == |parts| && out[4] == VfxId(cfg, s.scene, s.number, s.description)
      && forall f | 0 <= f < |parts| && f != 4 :: out[f] == parts[f]
  {
    var parts := Split(line, '\t');
    var id := VfxId(cfg, s.scene, s.number, s.description);
    DescriptionKeepsOut(cfg, prev, s, line);
    CodeKeepsOut(s.scene, '\t');
    VfxIdKeepsOut(cfg, s.scene, s.number, s.description, '\t');
    SplitSpec(line, '\t');
    var updated := parts[4 := id];
    assert forall f | 0 <= f < |updated| :: '\t' !in updated[f];
    SplitJoin(updated, '\t');
  }

  /** The fields of every line a run emits. */
  lemma EmittedFields(cfg: Config, lines: seq<string>, shots: seq<Shot>, j: nat)
    requires Follows(cfg, lines, shots) && j < |shots|
    requires '\t' !in cfg.show && '\t' !in cfg.episode
    ensures var s := shots[j];
      var parts := Split(lines[s.line], '\t');
      var out := Split(s.text, '\t');
      |out| == |parts| && out[4] == VfxId(cfg, s.scene, s.number, s.description)
      && forall f | 0 <= f < |parts| && f != 4 :: out[f] == parts[f]
  {
    SceneIsCode(cfg, lines, shots, j);
    assert Rule(cfg, shots[..j], shots[j], lines[shots[j].line]);
    ShotFields(cfg, shots[..j], shots[j], lines[shots[j].line]);
  }

  // ---- reading an ID back ----

  /** An ID without description reads back as its scene code and shot number. */
  lemma BaseIdRoundTrip(cfg: Config, scene: string, shot: int)
    requires '_' !in scene
    ensures DecodeId(cfg, BaseId(cfg, scene, shot)) == Some((scene, shot))
  {
    var p := IdPrefix(cfg);
    var digits := ShotText(shot);
    var id := BaseId(cfg, scene, shot);
    assert id == p + (scene + "_" + digits);
    assert id[|p|..] == scene + ['_'] + digits;
    ShotTextKeepsOut(shot, '_');
    SplitAfterPiece(scene, '_', digits);
    SplitNoSep(digits, '_');
    ShotTextRoundTrip(shot);
  }

  /** The ID of a shot emitted without description reads back as its scene and number. */
  lemma EmittedIdDecodes(cfg: Config, lines: seq<string>, shots: seq<Shot>, j: nat)
    requires Follows(cfg, lines, shots) && j < |shots|
    requires !cfg.includeDescriptions || shots[j].description == []
    ensures DecodeId(cfg, VfxId(cfg, shots[j].scene, shots[j].number, shots[j].description))
            == Some((shots[j].scene, shots[j].number))
  {
    SceneIsCode(cfg, lines, shots, j);
    CodeKeepsOut(shots[j].scene, '_');
    BaseIdRoundTrip(cfg, shots[j].scene, shots[j].number);
  }

  /** The description suffix is there exactly when descriptions are on and
      the description is not empty. */
  lemma VfxIdSuffix(cfg: Config, scene: string, shot: int, description: string)
    ensures var id := VfxId(cfg, scene, shot, description);
      var base := BaseId(cfg, scene, shot);
      (id == base <==> !(cfg.includeDescriptions && description != []))
      && (id != base ==> id == base + " - " + description)
  {}

  /** A line without a field 4 has no comment, so it is never a header: it
      can only fail as the continuation of an open scene. */
  lemma ShortLineNoHeader(line: string)
    requires IsShort(line)
    ensures HeaderOf(line).None?
  {}
}

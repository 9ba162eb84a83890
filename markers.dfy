/** The marker processor: one forward pass over the lines of a marker export
    that gives every kept line a VFX shot ID in its fifth tab field.

    `Run` is the specification, a fold of `Step` over the lines; the method
    `ProcessMarkers` is the loop of `process_markers`, proved to compute it. */
module Markers {
  import opened Text
  import opened Decimal
  import opened SceneHeader

  /** The values the user interface passes in with the marker text. */
  datatype Config = Config(
    show: string,
    episode: string,
    includeDescriptions: bool,
    startingShot: int,
    increment: int)

  /** One emitted line: the index of its input line, the scene and shot
      number it was given, its description and the output text. */
  datatype Shot = Shot(line: nat, scene: string, number: int, description: string, text: string)

  /** What the loop carries from line to line. `seen` stands for the keys of
      the scene-to-last-shot dictionary, the only thing ever read from it. */
  datatype State = State(scene: Option<string>, seen: set<string>, shot: int, emitted: seq<Shot>)

  /** The `IndexError` raised by `parts[4] = ...` on a kept line with fewer
      than five tab fields; `line` is its index among the input lines. */
  datatype MarkerError = FieldMissing(line: nat)

  datatype Result<+T> = Ok(value: T) | Err(error: MarkerError)

  /** The processed text and the summary message. */
  datatype Report = Report(text: string, summary: string)

  // ---- the ID ----

  /** `show_episode_scene_NNNN`, or `show_scene_NNNN` when there is no episode. */
  function BaseId(cfg: Config, scene: string, shot: int): string {
    if cfg.episode != [] then cfg.show + "_" + cfg.episode + "_" + scene + "_" + ShotText(shot)
    else cfg.show + "_" + scene + "_" + ShotText(shot)
  }

  /** The ID with `" - " + description` appended when descriptions are on
      and there is one. */
  function VfxId(cfg: Config, scene: string, shot: int, description: string): string {
    var id := BaseId(cfg, scene, shot);
    if cfg.includeDescriptions && description != [] then id + " - " + description else id
  }

  /** What an ID starts with before the scene code. */
  function IdPrefix(cfg: Config): string {
    if cfg.episode != [] then cfg.show + "_" + cfg.episode + "_" else cfg.show + "_"
  }

  /** Reads an ID (without description) back into its scene code and shot number. */
  function DecodeId(cfg: Config, id: string): Option<(string, int)> {
    var p := IdPrefix(cfg);
    if !StartsWith(id, p) then None
    else
      var parts := Split(id[|p|..], '_');
      if |parts| != 2 then None
      else match ParseShot(parts[1])
        case None => None
        case Some(n) => Some((parts[0], n))
  }

  // ---- one line ----

  /** `parts[4].strip() if len(parts) > 4 else ""`. */
  function CommentOf(parts: seq<string>): string {
    if |parts| > 4 then Strip(parts[4]) else []
  }

  /** `line.strip() == ""`. */
  predicate IsBlank(line: string) {
    Strip(line) == []
  }

  function Initial(cfg: Config): State {
    State(None, {}, cfg.startingShot, [])
  }

  /** The loop body for line `i`: skip it, emit it, or fail on it. */
  function Step(cfg: Config, st: State, i: nat, line: string): Result<State> {
    if IsBlank(line) then Ok(st)
    else
      var parts := Split(line, '\t');
      var comment := CommentOf(parts);
      match MatchSceneHeader(comment)
      case Some(code) =>
        var shot := if code in st.seen then st.shot else cfg.startingShot;
        Emit(cfg, st, i, parts, code, shot, HeaderDescription(comment))
      case None =>
        match st.scene
        case None => Ok(st)
        case Some(scene) => Emit(cfg, st, i, parts, scene, st.shot, comment)
  }

  /** Writes the ID into field 4 of a line kept under `scene` with number
      `shot`, or fails when the line has no field 4. */
  function Emit(cfg: Config, st: State, i: nat, parts: seq<string>, scene: string, shot: int, description: string): Result<State> {
    if |parts| <= 4 then Err(FieldMissing(i))
    else Ok(Kept(cfg, st, i, parts, scene, shot, description))
  }

  /** The state after a kept line: the scene is current and seen, the line
      is appended and the counter moves on. */
  function Kept(cfg: Config, st: State, i: nat, parts: seq<string>, scene: string, shot: int, description: string): State
    requires |parts| > 4
  {
    var text := Join(parts[4 := VfxId(cfg, scene, shot, description)], '\t');
    State(Some(scene), st.seen + {scene}, shot + cfg.increment,
          st.emitted + [Shot(i, scene, shot, description, text)])
  }

  /** What the loop settles on for a line it keeps: the scene, shot number
      and description, from the header on the line or from the state the
      line continues. A hypothesis about `Step` for the proofs of the loop,
      not a second definition of it. */
  predicate Settles(cfg: Config, st: State, line: string, scene: string, shot: int, description: string) {
    var comment := CommentOf(Split(line, '\t'));
    match MatchSceneHeader(comment)
    case Some(code) =>
      scene == code && description == HeaderDescription(comment)
      && shot == if code in st.seen then st.shot else cfg.startingShot
    case None => st.scene == Some(scene) && shot == st.shot && description == comment
  }

  /** The fields of the state after a kept line, one by one. */
  lemma KeptState(cfg: Config, st: State, i: nat, parts: seq<string>, scene: string, shot: int, description: string)
    requires |parts| > 4
    ensures var next := Kept(cfg, st, i, parts, scene, shot, description);
      next.scene == Some(scene) && next.seen == st.seen + {scene} && next.shot == shot + cfg.increment
      && next.emitted == st.emitted + [Shot(i, scene, shot, description, Join(parts[4 := VfxId(cfg, scene, shot, description)], '\t'))]
  {}

  lemma StepKept(cfg: Config, st: State, i: nat, line: string, scene: string, shot: int, description: string)
    requires !IsBlank(line) && Settles(cfg, st, line, scene, shot, description)
    ensures Step(cfg, st, i, line) == Emit(cfg, st, i, Split(line, '\t'), scene, shot, description)
  {}

  lemma StepSkipped(cfg: Config, st: State, i: nat, line: string)
    requires IsBlank(line) || (MatchSceneHeader(CommentOf(Split(line, '\t'))).None? && st.scene.None?)
    ensures Step(cfg, st, i, line) == Ok(st)
  {}

  /** The state after the loop has gone over `lines`, or the error it stopped with. */
  function Run(cfg: Config, lines: seq<string>): Result<State> {
    if lines == [] then Ok(Initial(cfg))
    else match Run(cfg, lines[..|lines| - 1])
      case Err(e) => Err(e)
      case Ok(st) => Step(cfg, st, |lines| - 1, lines[|lines| - 1])
  }

  function Texts(shots: seq<Shot>): seq<string> {
    seq(|shots|, k requires 0 <= k < |shots| => shots[k].text)
  }

  lemma TextsAppend(shots: seq<Shot>, s: Shot)
    ensures Texts(shots + [s]) == Texts(shots) + [s.text]
  {
    assert forall k | 0 <= k < |shots| :: (shots + [s])[k] == shots[k];
  }

  function Summary(total: nat): string {
    "Total Shots Processed: " + NatToString(total)
  }

  /** What `process_markers` returns for `content`, or the error it raises. */
  function Processed(cfg: Config, content: string): Result<Report> {
    match Run(cfg, Split(content, '\n'))
    case Err(e) => Err(e)
    case Ok(st) => Ok(Report(Join(Texts(st.emitted), '\n'), Summary(|st.emitted|)))
  }

  /** `Processed` fails exactly when the run over the lines fails, with its error. */
  lemma ProcessedRun(cfg: Config, content: string)
    ensures Processed(cfg, content).Err? == Run(cfg, Split(content, '\n')).Err?
    ensures Processed(cfg, content).Err? ==> Processed(cfg, content).error == Run(cfg, Split(content, '\n')).error
  {}

  lemma RunNext(cfg: Config, lines: seq<string>, i: nat)
    requires i < |lines|
    requires Run(cfg, lines[..i]).Ok?
    ensures Run(cfg, lines[..i + 1]) == Step(cfg, Run(cfg, lines[..i]).value, i, lines[i])
  {
    assert lines[..i + 1][..i] == lines[..i];
  }

  /** Once the loop has failed on a prefix, the whole run fails the same way. */
  lemma {:induction false} RunStopsAt(cfg: Config, lines: seq<string>, n: nat)
    requires n <= |lines| && Run(cfg, lines[..n]).Err?
    ensures Run(cfg, lines) == Run(cfg, lines[..n])
  {
    if n < |lines| {
      var init := lines[..|lines| - 1];
      assert init[..n] == lines[..n];
      RunStopsAt(cfg, init, n);
    } else {
      assert lines[..n] == lines;
    }
  }

  // ---- the loop ----

  /** `trace[k]` is the state before line `k`, and each step from one to the
      next succeeds: the states the loop has gone through so far. */
  ghost predicate Traced(cfg: Config, lines: seq<string>, trace: seq<State>) {
    1 <= |trace| <= |lines| + 1 && trace[0] == Initial(cfg)
    && forall k {:trigger Step(cfg, trace[k], k, lines[k])} | 0 <= k < |trace| - 1 ::
         Step(cfg, trace[k], k, lines[k]) == Ok(trace[k + 1])
  }

  lemma TracedExtend(cfg: Config, lines: seq<string>, trace: seq<State>, i: nat, next: State)
    requires Traced(cfg, lines, trace) && |trace| == i + 1 && i < |lines|
    requires Step(cfg, trace[i], i, lines[i]) == Ok(next)
    ensures Traced(cfg, lines, trace + [next])
  {
    var t := trace + [next];
    forall k | 0 <= k < |t| - 1
      ensures Step(cfg, t[k], k, lines[k]) == Ok(t[k + 1])
    {
      assert t[k] == trace[k];
    }
  }

  /** A trace follows `Run`: its last state is the run over the lines so far. */
  lemma {:induction false} TracedRun(cfg: Config, lines: seq<string>, trace: seq<State>)
    requires Traced(cfg, lines, trace)
    ensures Run(cfg, lines[..|trace| - 1]) == Ok(trace[|trace| - 1])
  {
    if |trace| > 1 {
      var n := |trace| - 1;
      TracedRun(cfg, lines, trace[..n]);
      assert trace[..n][n - 1] == trace[n - 1];
      RunNext(cfg, lines, n - 1);
    }
  }

  /** The loop skips line `i`. */
  lemma TraceSkip(cfg: Config, lines: seq<string>, trace: seq<State>, i: nat)
    requires Traced(cfg, lines, trace) && |trace| == i + 1 && i < |lines|
    requires IsBlank(lines[i]) || (MatchSceneHeader(CommentOf(Split(lines[i], '\t'))).None? && trace[i].scene.None?)
    ensures Traced(cfg, lines, trace + [trace[i]])
  {
    StepSkipped(cfg, trace[i], i, lines[i]);
    TracedExtend(cfg, lines, trace, i, trace[i]);
  }

  /** The loop keeps line `i`, which has a field 4. */
  lemma TraceKeep(cfg: Config, lines: seq<string>, trace: seq<State>, i: nat, scene: string, shot: int, description: string)
    requires Traced(cfg, lines, trace) && |trace| == i + 1 && i < |lines|
    requires !IsBlank(lines[i]) && Settles(cfg, trace[i], lines[i], scene, shot, description)
    requires |Split(lines[i], '\t')| > 4
    ensures Traced(cfg, lines, trace + [Kept(cfg, trace[i], i, Split(lines[i], '\t'), scene, shot, description)])
  {
    StepKept(cfg, trace[i], i, lines[i], scene, shot, description);
    TracedExtend(cfg, lines, trace, i, Kept(cfg, trace[i], i, Split(lines[i], '\t'), scene, shot, description));
  }

  /** The loop fails on line `i`, a kept line without a field 4. */
  lemma TraceFail(cfg: Config, content: string, trace: seq<State>, i: nat, scene: string, shot: int, description: string)
    requires Traced(cfg, Split(content, '\n'), trace) && |trace| == i + 1 && i < |Split(content, '\n')|
    requires var line := Split(content, '\n')[i];
      !IsBlank(line) && Settles(cfg, trace[i], line, scene, shot, description) && |Split(line, '\t')| <= 4
    ensures Processed(cfg, content) == Err(FieldMissing(i))
  {
    var lines := Split(content, '\n');
    StepKept(cfg, trace[i], i, lines[i], scene, shot, description);
    TracedRun(cfg, lines, trace);
    RunNext(cfg, lines, i);
    RunStopsAt(cfg, lines, i + 1);
    assert lines[..|lines|] == lines;
  }

  /** A trace over all the lines gives the report. */
  lemma TraceDone(cfg: Config, content: string, trace: seq<State>)
    requires Traced(cfg, Split(content, '\n'), trace) && |trace| == |Split(content, '\n')| + 1
    ensures var st := trace[|trace| - 1];
      Processed(cfg, content) == Ok(Report(Join(Texts(st.emitted), '\n'), Summary(|st.emitted|)))
  {
    var lines := Split(content, '\n');
    TracedRun(cfg, lines, trace);
    assert lines[..|lines|] == lines;
  }

  /** The loop of `process_markers`, with the same local state. */
  method ProcessMarkers(markerContent: string, showCode: string, episodeReel: string,
                        includeDescriptions: bool, startingShot: int, increment: int)
    returns (r: Result<Report>)
    ensures r == Processed(Config(showCode, episodeReel, includeDescriptions, startingShot, increment), markerContent)
  {
    var cfg := Config(showCode, episodeReel, includeDescriptions, startingShot, increment);
    var processed: seq<string> := [];
    var shotNumber := startingShot;
    var currentScene: Option<string> := None;
    var seen: set<string> := {};
    var totalShots: nat := 0;

    ghost var emitted: seq<Shot> := [];
    ghost var trace: seq<State> := [Initial(cfg)];

    var lines := Split(markerContent, '\n');
    for i := 0 to |lines|
      invariant |trace| == i + 1 && Traced(cfg, lines, trace)
      invariant trace[i] == State(currentScene, seen, shotNumber, emitted)
      invariant processed == Texts(emitted) && totalShots == |emitted|
    {
      var line := lines[i];
      ghost var before := State(currentScene, seen, shotNumber, emitted);
      if Strip(line) == [] {
        TraceSkip(cfg, lines, trace, i);
        trace := trace + [before];
        continue;
      }
      var parts := Split(line, '\t');
      var comment := if |parts| > 4 then Strip(parts[4]) else "";

      var sceneMatch := MatchSceneHeader(comment);
      var description: string;
      if sceneMatch.Some? {
        var sceneCode := sceneMatch.value;
        description := HeaderDescription(comment);
        currentScene := Some(sceneCode);
        if sceneCode !in seen {
          shotNumber := startingShot;
        }
        seen := seen + {sceneCode};
      } else if currentScene.Some? {
        description := comment;
      } else {
        TraceSkip(cfg, lines, trace, i);
        trace := trace + [before];
        continue;
      }
      assert Settles(cfg, before, line, currentScene.value, shotNumber, description);

      seen := seen + {currentScene.value};
      assert seen == before.seen + {currentScene.value};
      var vfxId := VfxId(cfg, currentScene.value, shotNumber, description);
      if |parts| <= 4 {
        TraceFail(cfg, markerContent, trace, i, currentScene.value, shotNumber, description);
        return Err(FieldMissing(i));
      }
      TraceKeep(cfg, lines, trace, i, currentScene.value, shotNumber, description);
      ghost var next := Kept(cfg, before, i, parts, currentScene.value, shotNumber, description);
      KeptState(cfg, before, i, parts, currentScene.value, shotNumber, description);
      parts := parts[4 := vfxId];
      var shot := Shot(i, currentScene.value, shotNumber, description, Join(parts, '\t'));
      trace := trace + [next];
      processed := processed + [shot.text];
      totalShots := totalShots + 1;
      TextsAppend(emitted, shot);
      emitted := emitted + [shot];
      shotNumber := shotNumber + increment;
    }
    TraceDone(cfg, markerContent, trace);
    r := Ok(Report(Join(processed, '\n'), "Total Shots Processed: " + NatToString(totalShots)));
  }

  // ---- import_markers ----

  /** `len(content.split("\n"))`: the "Total Markers Detected" figure. */
  function MarkerCount(content: string): (n: nat)
    ensures n == Count(content, '\n') + 1
  {
    SplitSpec(content, '\n');
    |Split(content, '\n')|
  }

  /** `import_markers` after decoding: the content and the message shown,
      or nothing when no file was chosen. */
  function ImportMarkers(file: Option<string>): (r: (Option<string>, string))
    ensures file.None? ==> r == (None, "No file selected")
    ensures file.Some? ==>
      r.0 == file && r.1 == "Total Markers Detected: " + NatToString(Count(file.value, '\n') + 1)
  {
    match file
    case None => (None, "No file selected")
    case Some(content) => (Some(content), "Total Markers Detected: " + NatToString(MarkerCount(content)))
  }
}

# VFX ID Creator — marker processing, modelled in Dafny

The VFX ID Creator reads a marker list exported from an editing system:
one marker per line, with tab-separated fields. The fifth field (index 4) is
the marker comment. A comment that starts with a scene code, such as
`SC12 - Car chase`, opens a scene. That line and the non-blank lines after
it receive VFX shot IDs of the form `SHOW_EPISODE_SCENE_NNNN`, or
`SHOW_SCENE_NNNN` when there is no episode. When descriptions are switched
on, ` - description` is appended to the ID. The ID replaces the comment in
field 4. The output is the rewritten lines joined with newlines, plus the
message `Total Shots Processed: N`.

The model covers `process_markers` and the part of `import_markers` that
splits and counts the lines:

- `text.dfy` (module `Text`) models the Python string operations used:
  `strip()`, `split` and `join` on one character, `sub in s`, and
  `split(" - ")`.
- `decimal.dfy` (module `Decimal`) models `str(int)` and the sign-aware
  `zfill(4)`, and parses a shot field back into a number.
- `header.dfy` (module `SceneHeader`) models the anchored pattern
  `([A-Z0-9]{2,5}) -` and the description taken from a header comment.
- `markers.dfy` (module `Markers`) holds three things:
  - the configuration, the ID builder and a decoder for IDs;
  - the loop body `Step` and its fold `Run`, which specify one call of
    `process_markers`;
  - the imperative method `ProcessMarkers`, which keeps the local
    variables of `process_markers` and is proved to compute `Processed`.
- `properties.dfy` (module `MarkerProperties`) describes the expected output
  directly in terms of the input lines, without the loop. The conjunction
  `Lawful` says:
  - which lines are kept;
  - that the output is in input order;
  - that each output line is its input line with field 4 replaced;
  - how scene, shot number and description are chosen.

  It proves that every successful run satisfies `Lawful`. It characterises exactly
  when the call fails. It also proves the structural facts about IDs and
  fields.
- `examples.dfy` (module `MarkerExamples`) holds concrete cases.

Behaviour of the code that the model keeps as it is:

- A line is skipped when it is blank after `strip()`. It is also skipped
  when no scene has been opened yet and its comment is not a header.
- Every other line is kept. A kept line with fewer than five tab fields makes
  the assignment `parts[4] = ...` raise `IndexError`. The model returns
  `Err(FieldMissing(i))` for it, where `i` is the index of the line. Such a
  line is never a header, because its comment is empty, so this only
  happens to a continuation line of an open scene.
- There is one shot counter for all scenes. A header whose scene has not
  been seen before resets the counter to the starting shot. A header for a
  scene seen earlier keeps counting from the previous shot. Each kept line
  advances the counter by the increment.
- The header description is `comment.split(" - ")[1]`. That is the text
  between the first and the second `" - "`, not everything after the first
  one. For example, `SC1 - Car - Night` gives `Car`.
- A continuation line uses its whole stripped comment as the description.
- `str(n).zfill(4)` keeps a minus sign in front, so `-5` gives `-005`.
  Numbers of five or more digits are not truncated.

## Model

| member | source | states |
|---|---|---|
| Markers.ProcessMarkers | VFXIDCreator6.py:17-62 | The loop over the lines, with the local state of `process_markers`, returns exactly `Processed`. That is the fold of the per-line step, or the `IndexError` of the first kept line without a field 4. |
| Markers.Step | VFXIDCreator6.py:29-60 | One pass of the loop body over line `i`: skip, emit, or raise on a kept line without field 4. No ensures of its own; specified by `StepLawful`, `KeepRule`, `SkipLawful` and `StepFails`. |
| Markers.Emit | VFXIDCreator6.py:47-60 | Raises on a line without field 4, otherwise appends the line with its ID. No ensures of its own; specified by `KeepLawful` and `StepFails`. |
| Markers.Kept | VFXIDCreator6.py:47-60 | The state after a kept line. No ensures of its own; specified by `KeepLawful`, `ShotFields` and `ShotNumbers`. |
| Markers.CommentOf | VFXIDCreator6.py:32 | The stripped field 4, or "" without one. No ensures of its own; specified by `ShortLineNoHeader` and `DescriptionKeepsOut`. |
| Markers.IsBlank | VFXIDCreator6.py:29 | `line.strip() == ""`. No ensures of its own; specified by `StripSpec`. |
| Markers.BaseId | VFXIDCreator6.py:48-51 | The ID with or without the episode. No ensures of its own; specified by `BaseIdRoundTrip`. |
| Markers.VfxId | VFXIDCreator6.py:48-54 | The ID with the optional description suffix. No ensures of its own; specified by `VfxIdSuffix`, `VfxIdKeepsOut` and `EmittedIdDecodes`. |
| Markers.Run | VFXIDCreator6.py:27-60 | The loop as a fold of `Step` over the lines. No ensures of its own; specified by `RunLawful`, `RunFailsFirst` and `RunStopsAt`. |
| Markers.Processed | VFXIDCreator6.py:17-62 | The result of one call of `process_markers`. No ensures of its own; specified by `ProcessedLawful`, `ProcessedFails` and `ProcessedFailsAt`, and computed by `ProcessMarkers`. |
| Markers.Summary | VFXIDCreator6.py:62 | The `Total Shots Processed` message. No ensures of its own; specified by `ProcessedLawful`. |
| SceneHeader.MatchSceneHeader | VFXIDCreator6.py:25-36 | The anchored match and its group 1. No ensures of its own; specified by `MatchSceneHeaderSpec`. |
| SceneHeader.HeaderDescription | VFXIDCreator6.py:37 | `comment.split(" - ")[1] if " - " in comment else ""`. No ensures of its own; specified by `HeaderDescriptionSpec` and `SplitOnPieces`. |
| Text.Strip | VFXIDCreator6.py:29 | `str.strip()`. No ensures of its own; specified by `StripSpec`. |
| Text.Split | VFXIDCreator6.py:27 | `str.split` on one character. No ensures of its own; specified by `SplitSpec`, `JoinSplit` and `SplitJoin`. |
| Text.Join | VFXIDCreator6.py:57 | `c.join(parts)`. No ensures of its own; specified by `JoinSplit`, `SplitJoin` and `JoinKeepsOut`. |
| Text.Contains | VFXIDCreator6.py:37 | `sep in s`. No ensures of its own; specified by `FindSpec`. |
| Text.SplitOn | VFXIDCreator6.py:37 | `s.split(sep)` for a longer separator. No ensures of its own; specified by `SplitOnPieces`. |
| Decimal.NatToString | VFXIDCreator6.py:49 | `str(n)` for n >= 0. No ensures of its own; specified by `NatToStringSpec` and `NatToStringValue`. |
| Decimal.IntToString | VFXIDCreator6.py:49 | `str(n)` for any int. No ensures of its own; specified by `ShotTextShape`. |
| Decimal.ZFill | VFXIDCreator6.py:49 | `s.zfill(width)`. No ensures of its own; specified by `ShotTextShape` and `ShotTextRoundTrip`. |
| Decimal.ShotText | VFXIDCreator6.py:49 | `str(shot).zfill(4)`. No ensures of its own; specified by `ShotTextShape` and `ShotTextRoundTrip`. |
| Markers.RunStopsAt | VFXIDCreator6.py:56 | Once a line has raised, later lines do not change the outcome. |
| Markers.TracedRun | VFXIDCreator6.py:28-60 | The sequence of states the loop passes through is the fold of the step over the lines read so far. |
| Markers.TextsAppend | VFXIDCreator6.py:57 | Appending a line to the output appends its text to the joined list. |
| Markers.MarkerCount | VFXIDCreator6.py:11-12 | The marker count is the number of newline characters plus one. |
| Markers.ImportMarkers | VFXIDCreator6.py:8-14 | With no file, it returns no content and `No file selected`. Otherwise it returns the content and `Total Markers Detected: ` with the newline count plus one. |
| MarkerProperties.RunLawful | VFXIDCreator6.py:17-62 | A successful run over any prefix of the lines satisfies `Lawful`. The output holds exactly the kept lines, in input order. Each output line obeys the header or continuation rule. The scene is open exactly when a header has been seen. The set of seen scenes is the set of scenes emitted. The counter is the last shot number plus the increment. |
| MarkerProperties.StepLawful | VFXIDCreator6.py:28-60 | One step keeps `Lawful`, or fails. |
| MarkerProperties.KeepLawful | VFXIDCreator6.py:35-60 | Emitting a kept line under the rule keeps `Lawful`. |
| MarkerProperties.SkipLawful | VFXIDCreator6.py:29-45 | Skipping a line that is not kept keeps `Lawful`. |
| MarkerProperties.KeepRule | VFXIDCreator6.py:34-54 | The scene, number and description the loop settles on are the ones the rule, stated on the earlier output, demands. |
| MarkerProperties.RunFails | VFXIDCreator6.py:56 | A failed run fails at the first kept line that has no field 4. |
| MarkerProperties.StepFails | VFXIDCreator6.py:56 | A step that fails is on a kept line without a field 4, and reports that line. |
| MarkerProperties.RunSucceeds | VFXIDCreator6.py:56 | After a successful run, no kept line lacks a field 4. |
| MarkerProperties.KeptNotShort | VFXIDCreator6.py:56 | Every line kept in a lawful state has a field 4. |
| MarkerProperties.RunFailsFirst | VFXIDCreator6.py:28-60 | A run fails if and only if some kept line has no field 4. The error names the first such line. |
| MarkerProperties.ProcessedFails | VFXIDCreator6.py:17-62 | The whole call raises if and only if some kept line of the marker text has no field 4. |
| MarkerProperties.ProcessedFailsAt | VFXIDCreator6.py:28-56 | When the call raises, the error names the first kept line without a field 4. |
| MarkerProperties.ProcessedLawful | VFXIDCreator6.py:57-62 | On success, the output text is the emitted lines joined with newlines and the summary counts them. The emitted lines satisfy `Lawful` over the whole input. |
| MarkerProperties.NoHeaderNoShots | VFXIDCreator6.py:42-45 | With no scene header anywhere, the run emits nothing and leaves the counter at the starting shot. |
| MarkerProperties.ShotNumbers | VFXIDCreator6.py:39-60 | The first shot of a new scene gets the starting shot. Every other shot gets the previous shot's number plus the increment. |
| MarkerProperties.ShotNumber | VFXIDCreator6.py:39-60 | The same for one shot emitted after a given earlier output. |
| MarkerProperties.FirstShotStarts | VFXIDCreator6.py:19-40 | The first emitted shot comes from a header of a new scene and gets the starting shot. |
| MarkerProperties.SceneIsCode | VFXIDCreator6.py:34-43 | Every emitted scene is two to five characters from `[A-Z0-9]`. |
| MarkerProperties.ShortLineNoHeader | VFXIDCreator6.py:32-35 | A line with no field 4 is never a scene header. |
| MarkerProperties.ShotFields | VFXIDCreator6.py:31-57 | When the show and episode hold no tab, an output line has as many fields as its input line. Field 4 is the ID and all other fields are unchanged. |
| MarkerProperties.EmittedFields | VFXIDCreator6.py:31-57 | The same for every line a run emits. |
| MarkerProperties.DescriptionKeepsOut | VFXIDCreator6.py:37-43 | A description never holds a tab. |
| MarkerProperties.VfxIdKeepsOut | VFXIDCreator6.py:48-54 | The ID holds only characters of its parts, digits, `-`, `_` and space. |
| MarkerProperties.BaseIdRoundTrip | VFXIDCreator6.py:48-51 | An ID without description, for a scene without `_`, decodes back to its scene and shot number. |
| MarkerProperties.EmittedIdDecodes | VFXIDCreator6.py:48-54 | The ID of every shot emitted without a description decodes back to that shot's scene and number. |
| MarkerProperties.VfxIdSuffix | VFXIDCreator6.py:53-54 | The ID differs from the base ID exactly when descriptions are on and the description is not empty. It then equals the base ID followed by ` - ` and the description. |
| SceneHeader.MatchSceneHeaderSpec | VFXIDCreator6.py:25-36 | A comment matches if and only if some code length from 2 to 5 fits at its start. The code found is the only one that fits, and it is two to five characters from `[A-Z0-9]`. |
| SceneHeader.HeaderDescriptionSpec | VFXIDCreator6.py:37 | With no `" - "`, the description is empty. Otherwise it starts right after the first `" - "`, holds no `" - "`, and ends at the end of the comment or at a `" - "`. No `" - "` starts inside it, so that is the next one, even when separators overlap. |
| SceneHeader.HeaderDescriptionKeepsOut | VFXIDCreator6.py:37 | A description holds no character that its comment does not hold. |
| Text.StripSpec | VFXIDCreator6.py:29 | `strip()` returns the unique infix surrounded only by whitespace that neither starts nor ends with whitespace. It is empty exactly for an all-whitespace line. |
| Text.StripKeepsOut | VFXIDCreator6.py:32 | Stripping adds no character. |
| Text.SplitSpec | VFXIDCreator6.py:31 | `split` on one character gives one more piece than there are separators, and no piece holds the separator. |
| Text.JoinSplit | VFXIDCreator6.py:27 | Joining the pieces of a split gives the text back. |
| Text.SplitJoin | VFXIDCreator6.py:57 | Splitting a join of separator-free pieces gives the pieces back. |
| Text.JoinKeepsOut | VFXIDCreator6.py:57 | A join holds only the separator and characters of its pieces. |
| Text.FindFromSpec | VFXIDCreator6.py:37 | The search for `sep` from position `k` finds an occurrence with no occurrence between `k` and it. It finds nothing only when `sep` does not occur at or after `k`. |
| Text.FindSpec | VFXIDCreator6.py:37 | `" - " in comment` holds exactly when the search finds an index, and the index found is the leftmost occurrence. |
| Text.PieceFromSpec | VFXIDCreator6.py:37 | A piece of `split(sep)` starting at `k` is a prefix of the text from `k`, holds no `sep`, and ends at the end or at an occurrence of `sep`. No occurrence of `sep` starts inside it, so it ends at the first occurrence at or after `k`. |
| Text.SplitOnPieces | VFXIDCreator6.py:37 | The piece taken for the description is `s.split(sep)[1]` when `sep` occurs. When it does not, the split is `[s]` and the description is empty. |
| Text.SecondPieceOrSpec | VFXIDCreator6.py:37 | `s.split(sep)[1] if sep in s else ""` is empty without an occurrence. Otherwise it starts right after the first occurrence, holds no `sep`, and ends at the end or at an occurrence. No occurrence starts inside it, so that is the next occurrence after the first one. |
| Text.SecondPieceOrKeepsOut | VFXIDCreator6.py:37 | That piece holds no character that `s` does not hold. |
| Decimal.NatToStringSpec | VFXIDCreator6.py:49 | `str(n)` is a non-empty run of digits with no leading zero, one digit exactly when n < 10. |
| Decimal.NatToStringValue | VFXIDCreator6.py:49 | The digits of `str(n)` read back as `n`. |
| Decimal.ShotTextShape | VFXIDCreator6.py:49 | `str(shot).zfill(4)` is `str(shot)` padded to four characters and never cut: its length is four, or the length of `str(shot)` when that is longer. It is exactly four digits for 0 <= shot < 10000, all digits for shot >= 0, and a minus sign followed by digits for a negative shot. |
| Decimal.ShotTextRoundTrip | VFXIDCreator6.py:49 | The shot field of every shot number parses back to that number. |
| Decimal.NegativeRoundTrip | VFXIDCreator6.py:49 | For a negative shot, the sign stays in front of the zero padding and the field parses back to the shot. |
| Decimal.NaturalRoundTrip | VFXIDCreator6.py:49 | For a shot that is not negative, the zero-padded digits parse back to the shot. |
| MarkerExamples.ShotTextExamples | VFXIDCreator6.py:49 | 10 gives `0010`, -5 gives `-005`, and 12345 gives `12345`. |
| MarkerExamples.BaseIdExamples | VFXIDCreator6.py:48-51 | `ABC_101_SC1_0010` with an episode, and `ABC_SC1_0020` without one. |
| MarkerExamples.HeaderExamples | VFXIDCreator6.py:25-36 | `SC1 - Opening` and `A1 -x` match. Lower case, six code characters and a leading space do not. |
| MarkerExamples.DescriptionExample | VFXIDCreator6.py:37 | `SC1 - Car - Night` gives the description `Car`. |

## Left out

- The Streamlit user interface is not modelled: the widgets, the file
  uploader, the download button and the displayed messages. Its values
  become the fields of `Config`.
- Reading the uploaded file and UTF-8 decoding are left out.
  `ImportMarkers` takes the decoded text, or `None` when no file was chosen.
- Regular expressions are not modelled in general. Only the one anchored
  pattern `([A-Z0-9]{2,5}) -` that the code uses is modelled, with its
  greedy backtracking.
- Text.StripSpec: whitespace is the ASCII set that `str.strip()` removes:
  space, `\t`, `\n`, `\v`, `\f`, `\r` and 0x1C to 0x1F. The non-ASCII
  Unicode spaces that Python also strips are not modelled.
- The values of the `scene_last_shot` dictionary are written but never read.
  The model keeps only its keys, as the set `seen`.
- Python's `str.split(sep)` with a longer separator is modelled for any
  non-empty separator. `maxsplit` and splitting on runs of whitespace are
  not used by the code and are left out.
- A single end-to-end run on concrete marker text is not stated as a lemma.
  The concrete examples cover the pieces: the shot field, the ID, header
  matching and the description.

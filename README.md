# Promo-video toolkit, modelled in Dafny

This project models the logic of a small Remotion video project and the
scripts around it:

- **The IceCubePromo compositor** (`IceCubePromo`, built on `Remotion`).
  - The `SCENES` table.
  - The six `<Sequence>` windows built from that table.
  - The `CrossfadeTransition` opacity envelope: fade in, hold, then an optional fade out.
  - The clamped download counter of the social-proof scene.
- **Remotion's `interpolate` and `<Sequence>`** (`Remotion`). These two framework primitives are written down as specification functions. Clamped `interpolate` returns a `Result`, because it throws on malformed ranges.
- **The two voiceover scripts** (`AudioMix`, `GenerateVoiceover`, `RenderVoiceover`).
  - Their per-section loop, with its overlap warning.
  - The ffmpeg command that mixes the clips onto a silent base: its inputs and its filter graph.
  - The transcript timing check of the promo-video skill.
  - The character count and the sections table of the IceCubePromo renderer.
- **The Gemini image generator** (`NanoBananaImage`).
  - The aspect instruction.
  - The reference-image sentence.
  - The contents list.
  - The choice of model and configuration.
  - The scan of the response for the first image.
- **The `create-video` prompt-capture command** (`CreateVideo`). It is a class `PromptStore` whose fields are the prompts directory, `latest.txt` and `history.txt`. Its one `Run` method is a whole run of the script.

`Text` holds the string operations the sources get from their languages: decimal formatting, `join`, `lower`, `in` and `trim`. It also holds `Split`, which no source calls: it is a proof device that reads the ffmpeg filter graph back into its pieces (`FilterGraphPieces`). `Wrappers` holds `Option` and `Result`.

Modelling choices:

- Frames are integers. Times and opacities are exact reals.
- Python's `int()` is truncation toward zero.
- The model call, the measured clip lengths, the transcript segments, the set of existing files and the time stamp are all parameters.

Two properties of the compositor code that the model states exactly:

- **Failures.** `interpolate` throws when it rejects a crossfade's ranges: a non-positive fade-in, or, with a fade-out, a window of at most `fadeIn + 1` frames. `Opacity` returns that error for those parameters, and `PromoCoverage` proves that the promo's own windows never hit it.
- **Overlaps.** Neighbouring windows overlap by 20 frames (hook into app reveal) and 15 frames (every later transition). On the first frame of each overlap the incoming scene is at its local frame 0, so its opacity is 0. `PromoCrossfade` states this exactly.

## Model

| member | source | states |
|---|---|---|
| `Remotion.Interpolate` | src/compositions/IceCubePromo.tsx:684-689 | `interpolate` with both sides clamped yields a value exactly when the ranges have equal length, at least two points, and a strictly increasing input range |
| `Remotion.InterpolateClampLeft` | src/compositions/IceCubePromo.tsx:678-680 | at or before the first input point the result is the first output (`extrapolateLeft: 'clamp'`) |
| `Remotion.InterpolateClampRight` | src/compositions/IceCubePromo.tsx:678-680 | at or after the last input point the result is the last output (`extrapolateRight: 'clamp'`) |
| `Remotion.InterpolateOnSegment` | src/compositions/IceCubePromo.tsx:684-689 | inside segment k the result is the straight line through the segment's two end points |
| `IceCubePromo.ScenesContiguous` | src/compositions/IceCubePromo.tsx:13-20 | the first scene starts at 0; each scene starts where the previous one ends; the last one ends at frame 550 |
| `IceCubePromo.FadeOutStart` | src/compositions/IceCubePromo.tsx:683 | the fade-out starts after the fade-in ends and no earlier than `duration - fadeOut`; it is one of the two |
| `IceCubePromo.Opacity` | src/compositions/IceCubePromo.tsx:676-690 | the crossfade has an opacity exactly when the fade-in is positive and, with a fade-out, the duration exceeds `fadeIn + 1`; otherwise it is the error `interpolate` throws |
| `IceCubePromo.OpacityIsEnvelope` | src/compositions/IceCubePromo.tsx:676-690 | through clamped `interpolate`, the crossfade draws 0 up to the start, then `localFrame / fadeIn`, then 1 while held, then with a fade-out `(duration - localFrame) / (duration - fadeOutStart)`, then 0 |
| `IceCubePromo.OpacityInUnitRange` | src/compositions/IceCubePromo.tsx:676-690 | for every integer local frame, including negative frames and frames past the end, the opacity lies in [0, 1] |
| `IceCubePromo.OpacityShapeWithFadeOut` | src/compositions/IceCubePromo.tsx:683-689 | with a fade-out the opacity is 0 at and before local frame 0, exactly 1 on [fadeIn, fadeOutStart], and 0 from `duration` on |
| `IceCubePromo.OpacityShapeWithoutFadeOut` | src/compositions/IceCubePromo.tsx:677-681 | without a fade-out the opacity is `localFrame / fadeIn` clamped to [0, 1], so it stays 1 from the end of the fade-in on |
| `IceCubePromo.OpacityRisesDuringFadeIn` | src/compositions/IceCubePromo.tsx:684-688 | the opacity never decreases over [0, fadeIn] |
| `IceCubePromo.OpacityFallsDuringFadeOut` | src/compositions/IceCubePromo.tsx:684-688 | with a fade-out, the opacity never increases over [fadeOutStart, duration] |
| `IceCubePromo.OpacityPositiveInside` | src/compositions/IceCubePromo.tsx:684-688 | strictly inside its window, that is after local frame 0 and, with a fade-out, before `duration`, a scene's opacity is positive |
| `IceCubePromo.HookEnvelopeExample` | src/compositions/IceCubePromo.tsx:698-701 | the hook's 105-frame window with the default 12/12 fades starts its fade-out at 93, and has opacity 0, 1, 1, 1/12, 0 at local frames 0, 12, 93, 104, 105 |
| `IceCubePromo.ShowingFromExact` | src/compositions/IceCubePromo.tsx:698-732 | the tracks listed as showing a frame are exactly those whose `<Sequence>` window contains it, in increasing order |
| `IceCubePromo.LayersFromOk` | src/compositions/IceCubePromo.tsx:698-732 | a frame renders without error exactly when every window showing it has a well-formed crossfade |
| `IceCubePromo.LayersFromShowing` | src/compositions/IceCubePromo.tsx:698-732 | a rendered frame draws one layer per showing window, in order (later scenes on top), each with that window's local frame and opacity |
| `IceCubePromo.LayersWithinWindows` | src/compositions/IceCubePromo.tsx:698-732 | with well-formed crossfades, every drawn layer sees a local frame inside its window and has an opacity in [0, 1] |
| `IceCubePromo.NothingOutsideWindows` | src/compositions/IceCubePromo.tsx:698-732 | a frame outside every window draws nothing |
| `IceCubePromo.PromoTracksWellFormed` | src/compositions/IceCubePromo.tsx:698-732 | each window gives its crossfade start frame 0 and its own length, and every crossfade is well formed |
| `IceCubePromo.PromoWindows` | src/compositions/IceCubePromo.tsx:698-732 | the windows are the hook on [0, 105), each middle scene on [start - 5, start + duration + 10), and the call to action on [460, 550) |
| `IceCubePromo.PromoOverlaps` | src/compositions/IceCubePromo.tsx:698-732 | neighbouring windows overlap by 20 frames (hook into app reveal) or 15 frames; windows two apart never meet |
| `IceCubePromo.PromoShowing` | src/compositions/IceCubePromo.tsx:698-732 | which windows show each frame, range by range, matches a hand-derived schedule |
| `IceCubePromo.PromoCoverage` | src/compositions/IceCubePromo.tsx:698-732 | the promo never fails to render; every frame of [0, 550) draws one or two scenes, and frames outside it draw none |
| `IceCubePromo.PromoPair` | src/compositions/IceCubePromo.tsx:698-732 | during transition k exactly the layers of windows k and k + 1 are drawn, in that order |
| `IceCubePromo.PromoCrossfade` | src/compositions/IceCubePromo.tsx:698-732 | during a transition the outgoing scene is visible throughout, and the incoming scene is visible exactly from the second frame of the overlap on |
| `IceCubePromo.DownloadCount` | src/compositions/IceCubePromo.tsx:483-489 | the counter is an integer in [0, 500000]: 0 up to frame 30, 500000 from frame 60 on, and `floor((frame - 30) * 50000 / 3)` in between |
| `IceCubePromo.DownloadRamp` | src/compositions/IceCubePromo.tsx:485-488 | the clamped ramp from [30, 60] to [0, 500000] is defined, saturates at both ends and floors to the line in between |
| `IceCubePromo.DownloadCountMonotone` | src/compositions/IceCubePromo.tsx:483-489 | the counter never goes down as the frame advances |
| `Text.ContainsIff` | plugins/promo-video/skills/promo-video/scripts/generate_voiceover.py:173 | Python's `in` on strings holds exactly when the pattern occurs at some position |
| `Text.Trim` | scripts/create-video.js:26 | the trimmed prompt is the input with a whitespace-only prefix and a whitespace-only suffix removed, and neither of its ends is whitespace |
| `Text.TrimEmptyIff` | scripts/create-video.js:28 | the trimmed string is empty exactly when the input is all whitespace |
| `Text.Pad2Value` | plugins/promo-video/skills/promo-video/scripts/generate_voiceover.py:199 | the two-digit zero-padded form of a number reads back as that number |
| `AudioMix.TruncToInt` | plugins/promo-video/skills/promo-video/scripts/generate_voiceover.py:117 | `int()` truncates toward zero: the result is within one of the input, on the side of zero |
| `AudioMix.SectionFileInjective` | plugins/promo-video/skills/promo-video/scripts/generate_voiceover.py:199 | different sections never share a clip file name |
| `AudioMix.PrepareSections` | plugins/promo-video/skills/promo-video/scripts/generate_voiceover.py:193-212 | the per-section loop (the same in scripts/render_voiceover.py:102-117) lists clip `section_{i:02d}.mp3` and the start time of each section, the silent base followed by every clip as temporary files, and warns, in order, about exactly the sections whose clip runs past the next section's start; the last section is never warned about |
| `AudioMix.InputArgsShape` | scripts/render_voiceover.py:76-79 | the input arguments are `-i silence_base.mp3` and then `-i file` for each clip in order: 2 + 2n entries |
| `AudioMix.MixTakesEveryClip` | scripts/render_voiceover.py:82-83 | the mix stage takes in the delayed copy of every clip |
| `AudioMix.FilterGraphPieces` | plugins/promo-video/skills/promo-video/scripts/generate_voiceover.py:117-121 | read back at its `;` separators, the filter graph is the delay filters in order (one empty filter when there are none) followed by `[0][d0]…[d(n-1)]amix=inputs=n+1:duration=first` |
| `AudioMix.CombineSections` | plugins/promo-video/skills/promo-video/scripts/generate_voiceover.py:110-124 | the command (the same in scripts/render_voiceover.py:75-85) is `ffmpeg -y`, the inputs of the clips `zip` pairs with start times, `-filter_complex` with the filter graph, and the output file |
| `GenerateVoiceover.WindowsNonEmpty` | plugins/promo-video/skills/promo-video/scripts/generate_voiceover.py:169 | a section's window ends at the next section's start, or at 60 s for the last one; in a well-timed table it ends after the section starts |
| `GenerateVoiceover.SectionsWellTimed` | plugins/promo-video/skills/promo-video/scripts/generate_voiceover.py:38-51 | the shipped start times increase and lie in [0, 60), and each delay is a whole number of seconds in milliseconds |
| `GenerateVoiceover.FirstMatch` | plugins/promo-video/skills/promo-video/scripts/generate_voiceover.py:172-173 | it finds the first segment whose lower-cased text contains the lower-cased first 20 characters of the section, or reports that none does |
| `GenerateVoiceover.SectionIssues` | plugins/promo-video/skills/promo-video/scripts/generate_voiceover.py:172-181 | a section contributes at most two issues, all naming it, with an early start before an overlap |
| `GenerateVoiceover.CheckTimingAlignment` | plugins/promo-video/skills/promo-video/scripts/generate_voiceover.py:162-183 | the nested loop with `break` returns exactly the issues of every section, in section order |
| `GenerateVoiceover.CheckSection` | plugins/promo-video/skills/promo-video/scripts/generate_voiceover.py:167-181 | one pass of the outer loop: the segment scan stops at the first segment quoting the section and appends exactly that section's issues to the ones found so far |
| `GenerateVoiceover.TimingIssuesShape` | plugins/promo-video/skills/promo-video/scripts/generate_voiceover.py:164-183 | there are at most two issues per section, each names an existing section, and they come in section order |
| `GenerateVoiceover.IssuesOfSection` | plugins/promo-video/skills/promo-video/scripts/generate_voiceover.py:168-181 | the issues naming section i are exactly the ones that section contributes |
| `GenerateVoiceover.EarlyStartReported` | plugins/promo-video/skills/promo-video/scripts/generate_voiceover.py:177-178 | an early start is reported for section i exactly when its first matching segment starts more than 0.5 s before the section (missing start counts as 0); a late start never is |
| `GenerateVoiceover.OverlapReported` | plugins/promo-video/skills/promo-video/scripts/generate_voiceover.py:179-180 | an overlap is reported for section i exactly when its first matching segment ends after the section's window (missing end counts as 0) |
| `GenerateVoiceover.UnmatchedSectionSilent` | plugins/promo-video/skills/promo-video/scripts/generate_voiceover.py:172-173 | a section without a matching segment is never mentioned |
| `GenerateVoiceover.LaterSegmentsIgnored` | plugins/promo-video/skills/promo-video/scripts/generate_voiceover.py:181 | once a section has a match, segments after it do not change what it contributes |
| `RenderVoiceover.TotalCharsAppend` | scripts/render_voiceover.py:98 | the character count of two tables back to back is the sum of their counts |
| `RenderVoiceover.TotalCharsCountsEach` | scripts/render_voiceover.py:98 | every section's text counts in full, and the count is 0 exactly when all texts are empty |
| `RenderVoiceover.SectionsChars` | scripts/render_voiceover.py:25-32 | the shipped table has 243 characters |
| `RenderVoiceover.SectionsWellTimed` | scripts/render_voiceover.py:15-32 | the start times strictly increase and lie in (0, 19), and the clips are delayed by 800, 3500, 6500, 10000, 13200 and 15800 ms |
| `NanoBananaImage.AspectDefault` | plugins/nano-banana-pro/skills/generate/scripts/image.py:34-41 | any aspect key other than landscape and portrait gets the square instruction |
| `NanoBananaImage.AspectAgrees` | plugins/nano-banana-pro/skills/generate/scripts/image.py:34-41 | for every aspect key, the sentence from the instruction table names the same ratio as the pro model's ratio table at line 81 |
| `NanoBananaImage.ReferenceCountReadable` | plugins/nano-banana-pro/skills/generate/scripts/image.py:74 | with two or more references, the number in the reference sentence reads back as the count |
| `NanoBananaImage.FirstMissing` | plugins/nano-banana-pro/skills/generate/scripts/image.py:66-69 | it finds the first reference path that does not exist, or reports that all exist |
| `NanoBananaImage.OpenReferences` | plugins/nano-banana-pro/skills/generate/scripts/image.py:65-70 | the reference loop stops at the first missing path with that error, and otherwise opens every reference in order |
| `NanoBananaImage.BuildRequest` | plugins/nano-banana-pro/skills/generate/scripts/image.py:53-98 | the request-building code returns exactly the request, or the failure, that the specification `Prepare` describes |
| `NanoBananaImage.PrepareOutcome` | plugins/nano-banana-pro/skills/generate/scripts/image.py:53-77 | a request is built exactly when there is an API key, every reference exists and the model is flash or pro; a missing or empty key is `MissingApiKey` and a present key never is; with a key, a missing reference is `ReferenceNotFound` of the first missing path; with a key and every reference present, a model other than flash or pro is `UnknownModel` |
| `NanoBananaImage.PrepareContents` | plugins/nano-banana-pro/skills/generate/scripts/image.py:60-75 | the contents are the reference images in argument order and then the prompt, which is the aspect instruction, a space, the user's prompt and the reference sentence |
| `NanoBananaImage.PrepareModel` | plugins/nano-banana-pro/skills/generate/scripts/image.py:77-98 | pro gets its model id and a configuration with the aspect's ratio and the requested size; flash gets its model id and no configuration |
| `NanoBananaImage.EmptyReferencesAsNone` | plugins/nano-banana-pro/skills/generate/scripts/image.py:65 | an empty reference list builds the same request as none |
| `NanoBananaImage.FirstImagePart` | plugins/nano-banana-pro/skills/generate/scripts/image.py:106-113 | it finds the first part that has image data and no text, or reports that none does |
| `NanoBananaImage.ScanResponse` | plugins/nano-banana-pro/skills/generate/scripts/image.py:106-116 | the scan returns the bytes of the first image part, or `NoImageData` when there is none |
| `NanoBananaImage.TextPartNeverSaved` | plugins/nano-banana-pro/skills/generate/scripts/image.py:107-109 | a part that has text is never saved, even when it also carries image data |
| `NanoBananaImage.AnyImageIsFound` | plugins/nano-banana-pro/skills/generate/scripts/image.py:106-113 | a response with any image part yields an image, no later than that part |
| `NanoBananaImage.GenerateImage` | plugins/nano-banana-pro/skills/generate/scripts/image.py:44-116 | `generate_image` fails as the request building does, and otherwise saves the first image of the response to the output path or fails with `NoImageData` |
| `CreateVideo.PromptOf` | scripts/create-video.js:26 | the prompt (the arguments after the second, joined by spaces and trimmed) has no whitespace at either end |
| `CreateVideo.BlankPromptIff` | scripts/create-video.js:26-28 | the usage path is taken exactly when the joined arguments are all whitespace or absent |
| `CreateVideo.SingleArgumentKept` | tests/create-video.test.js:17-26 | a prompt passed as one argument without surrounding whitespace is saved as it is |
| `CreateVideo.HistoryEntryReadBack` | scripts/create-video.js:57-58 | the history entry is `[`, the time stamp, `] `, the prompt and a newline, and both can be read back |
| `CreateVideo.PromptStore.Run` | scripts/create-video.js:26-64 | keeps the invariant that `latest.txt` and `history.txt` exist only inside the prompts directory; exit status 0 on both paths. A blank prompt changes nothing. Otherwise the directory exists afterwards, `latest.txt` holds exactly the prompt, and the history is the old one (or empty) followed by the entry, the old one a prefix of the new; when reading or rewriting the history throws, it is the entry alone |

## Left out

- Presentation is not modelled, because it is floating-point numerics and layout rather than logic:
  - `spring` physics;
  - the `Math.sin` drift terms;
  - `FloatingParticles`;
  - all style and layout trees of the scenes.
- The other compositions (`FlowerTowTruck`, `PromptVideo`, `HelloWorld`) are presentational. `Root.tsx` only registers compositions.
- Remotion's easing functions, its other extrapolation modes and its rendering are not modelled. Only clamped, linear `interpolate` and `<Sequence>` windows are specified.
- Network, subprocess and filesystem effects are external; they appear only as parameters and results.
  - The ElevenLabs and Gemini calls.
  - ffmpeg, ffprobe and Whisper, including `create_silence_base` / `create_silence`, `normalize_audio` and `cleanup`.
  - Opening, decoding and saving images, and creating the output directory.
  - Running the mix command.
  - The clip lengths, transcript segments and model responses are inputs. The command is returned, not run.
- Console output, usage and message texts are not modelled, nor is the exact wording and number formatting of issue strings. Issues are a datatype carrying the same values.
- `AudioMix.TruncToInt`: the float product `start_time * 1000` is taken as exact, so IEEE rounding before truncation is not modelled.
- `AudioMix.PrepareSections`: generate_voiceover.py prints each start time with the integer format `:2d`, which raises `ValueError` for a float start such as 2.5 or 5.0, so that script stops before generating that section's clip. The model shares one loop with render_voiceover.py, whose `:5.1f` accepts any number, and does not capture that error. The shipped table of generate_voiceover.py uses only integer start times.
- `GenerateVoiceover.Matches`: `lower()` maps only ASCII letters. Python's full Unicode case mapping is not modelled.
- `Text.Trim`: JavaScript's `trim()` whitespace set is reduced to ASCII space, tab, line feed, vertical tab, form feed and carriage return.
- `CreateVideo.PromptStore.Run`: only the history update may fail, as one flag. Failures of `mkdirSync`, of the `latest.txt` write, or of the fallback history write in the `catch` block end the script with an uncaught exception and a non-zero exit status; none of these is modelled, so `Run` always exits with 0. The time stamp is a parameter rather than the wall clock.
- Only the `generate_image` function is modelled, not `main` of image.py. Command-line parsing with `argparse` is left out: its choices restrict `--aspect`, `--model` and `--size`, while the function itself accepts any string, and the model follows the function.
- When fewer start times than files are passed, `combine_audio_sections` pairs them by `zip` but still counts every file in the mix stage. The model reproduces this. Both scripts always pass lists of equal length.

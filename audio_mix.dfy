/** The part the two voiceover scripts share: the per-section loop of their
    `main` (file names, start times, temporary files, overlap warnings) and
    the ffmpeg command that mixes the sections onto the silent base track
    (`combine_audio_sections` in the promo-video skill and `combine_sections`
    in the IceCubePromo renderer are the same code). Times are seconds as
    exact reals; the measured length of each generated clip is an input. */
module AudioMix {
  import opened Text

  /** One entry of a script's `sections` table: start time and words. */
  datatype Section = Section(start: real, text: string)

  const SilenceBase := "silence_base.mp3"

  /** The start column of a table. */
  function StartTimes(sections: seq<Section>): (st: seq<real>)
    ensures |st| == |sections| && forall i :: 0 <= i < |st| ==> st[i] == sections[i].start
  {
    seq(|sections|, i requires 0 <= i < |sections| => sections[i].start)
  }

  /** Python's `int()` on a float: truncation toward zero. */
  function TruncToInt(x: real): (r: int)
    ensures x >= 0.0 ==> r >= 0 && r as real <= x < r as real + 1.0
    ensures x < 0.0 ==> r <= 0 && r as real - 1.0 < x <= r as real
  {
    if x >= 0.0 then x.Floor else -((-x).Floor)
  }

  /** `int(start_time * 1000)`: the delay of a section in milliseconds. */
  function DelayMs(start: real): int
  {
    TruncToInt(start * 1000.0)
  }

  // ---------------------------------------------------------------------
  // The main loop: one clip per section, warned about when it runs into
  // the next section's start

  /** `f"section_{i:02d}.mp3"` */
  function SectionFile(i: nat): string
  {
    "section_" + Pad2(i) + ".mp3"
  }

  /** Different sections never share a clip file. */
  lemma SectionFileInjective(i: nat, j: nat)
    requires SectionFile(i) == SectionFile(j)
    ensures i == j
  {
    var a, b := SectionFile(i), SectionFile(j);
    assert |Pad2(i)| == |Pad2(j)|;
    assert Pad2(i) == a[8..|a| - 4] && Pad2(j) == b[8..|b| - 4];
    Pad2Injective(i, j);
  }

  /** The clip of section `i`, started on time and lasting `duration`
      seconds, runs past the start of section `i + 1`. The last section has
      no successor and is never flagged. */
  predicate OverlapsNext(sections: seq<Section>, durations: seq<real>, i: nat)
    requires |durations| == |sections|
  {
    i + 1 < |sections| && sections[i].start + durations[i] > sections[i + 1].start
  }

  /** The per-section loop of `main`, where `durations[i]` is the length
      of the clip generated for section `i`: it lists the clip files and
      their start times, the temporary files to delete afterwards, and the
      sections it warns about, in order. */
  method PrepareSections(sections: seq<Section>, durations: seq<real>)
      returns (files: seq<string>, starts: seq<real>, temps: seq<string>, warnings: seq<nat>)
    requires |durations| == |sections|
    ensures |files| == |sections| && forall i :: 0 <= i < |files| ==> files[i] == SectionFile(i)
    ensures |starts| == |sections| && forall i :: 0 <= i < |starts| ==> starts[i] == sections[i].start
    ensures temps == [SilenceBase] + files
    ensures forall i: nat :: i in warnings <==> i < |sections| && OverlapsNext(sections, durations, i)
    ensures forall a, b :: 0 <= a < b < |warnings| ==> warnings[a] < warnings[b]
  {
    files, starts, temps, warnings := [], [], [SilenceBase], [];
    var i := 0;
    while i < |sections|
      invariant 0 <= i <= |sections|
      invariant |files| == i && forall k :: 0 <= k < i ==> files[k] == SectionFile(k)
      invariant |starts| == i && forall k :: 0 <= k < i ==> starts[k] == sections[k].start
      invariant temps == [SilenceBase] + files
      invariant forall k: nat :: k in warnings <==> k < i && OverlapsNext(sections, durations, k)
      invariant forall k :: 0 <= k < |warnings| ==> warnings[k] < i
      invariant forall a, b :: 0 <= a < b < |warnings| ==> warnings[a] < warnings[b]
    {
      var filename := SectionFile(i);
      files := files + [filename];
      starts := starts + [sections[i].start];
      temps := temps + [filename];
      if i + 1 < |sections| {
        var nextStart := sections[i + 1].start;
        if sections[i].start + durations[i] > nextStart {
          warnings := warnings + [i];
        }
      }
      i := i + 1;
    }
  }

  // ---------------------------------------------------------------------
  // The mixing command

  /** The input arguments: the silent base, then `-i file` per clip. */
  function InputArgs(files: seq<string>): seq<string>
  {
    if files == [] then ["-i", SilenceBase]
    else InputArgs(files[..|files| - 1]) + ["-i", files[|files| - 1]]
  }

  /** Input 0 is the silent base and input `i + 1` is the clip of section
      `i`: the list has two entries per clip after the two of the base. */
  lemma {:induction false} InputArgsShape(files: seq<string>)
    ensures |InputArgs(files)| == 2 + 2 * |files|
    ensures InputArgs(files)[..2] == ["-i", SilenceBase]
    ensures forall i :: 0 <= i < |files| ==> InputArgs(files)[2 + 2 * i..4 + 2 * i] == ["-i", files[i]]
  {
    if files != [] {
      var init := files[..|files| - 1];
      InputArgsShape(init);
      var r := InputArgs(files);
      assert r == InputArgs(init) + ["-i", files[|files| - 1]];
      forall i | 0 <= i < |files|
        ensures r[2 + 2 * i..4 + 2 * i] == ["-i", files[i]]
      {
        if i < |init| {
          assert r[2 + 2 * i..4 + 2 * i] == InputArgs(init)[2 + 2 * i..4 + 2 * i];
          assert init[i] == files[i];
        }
      }
      assert r[..2] == InputArgs(init)[..2];
    }
  }

  /** `[d{i}]`: the label of the delayed copy of clip `i`. */
  function Label(i: nat): string
  {
    "[d" + NatToString(i) + "]"
  }

  /** `f"[{i+1}]adelay={ms}|{ms}[d{i}]"`: delay input `i + 1` by `ms`
      milliseconds on both channels and call the result `[d{i}]`. */
  function DelayPart(i: nat, ms: int): string
  {
    "[" + NatToString(i + 1) + "]adelay=" + IntToString(ms) + "|" + IntToString(ms) + Label(i)
  }

  /** The delay filters for clips starting at `starts`, in order. */
  function DelayParts(starts: seq<real>): seq<string>
  {
    seq(|starts|, i requires 0 <= i < |starts| => DelayPart(i, DelayMs(starts[i])))
  }

  /** `"[0]" + "".join(f"[d{i}]" for i in range(n))` without the `[0]`. */
  function MixLabels(n: nat): string
  {
    if n == 0 then "" else MixLabels(n - 1) + Label(n - 1)
  }

  /** The last filter: mix the base with the `n` delayed clips, as long as the base. */
  function MixStage(n: nat): string
  {
    "[0]" + MixLabels(n) + MixTail(n)
  }

  /** `amix=inputs={n+1}:duration=first` */
  function MixTail(n: nat): string
  {
    "amix=inputs=" + NatToString(n + 1) + ":duration=first"
  }

  /** The number of clip/start pairs `zip` yields. */
  function Paired(files: seq<string>, starts: seq<real>): nat
  {
    if |files| < |starts| then |files| else |starts|
  }

  /** The `-filter_complex` argument: the delay filters of the paired clips
      joined by `;`, then `;` and the mix stage, which counts every file. */
  function FilterGraph(files: seq<string>, starts: seq<real>): string
  {
    Join(";", DelayParts(starts[..Paired(files, starts)])) + ";" + MixStage(|files|)
  }

  /** The ffmpeg command line. */
  function Command(files: seq<string>, starts: seq<real>, output: string): seq<string>
  {
    ["ffmpeg", "-y"] + InputArgs(files[..Paired(files, starts)]) + ["-filter_complex", FilterGraph(files, starts), output]
  }

  /** Builds the mixing command (running it is not part of this model). */
  method CombineSections(files: seq<string>, starts: seq<real>, output: string) returns (cmd: seq<string>)
    ensures cmd == Command(files, starts, output)
  {
    var inputs := ["-i", SilenceBase];
    var parts: seq<string> := [];
    var m := Paired(files, starts);
    var i := 0;
    while i < m
      invariant 0 <= i <= m
      invariant inputs == InputArgs(files[..i])
      invariant parts == DelayParts(starts[..i])
    {
      InputArgsStep(files, i);
      DelayPartsStep(starts, i);
      inputs := inputs + ["-i", files[i]];
      var delayMs := DelayMs(starts[i]);
      parts := parts + [DelayPart(i, delayMs)];
      i := i + 1;
    }
    var filter := Join(";", parts) + ";" + MixStage(|files|);
    cmd := ["ffmpeg", "-y"] + inputs + ["-filter_complex", filter, output];
  }

  lemma InputArgsStep(files: seq<string>, i: nat)
    requires i < |files|
    ensures InputArgs(files[..i + 1]) == InputArgs(files[..i]) + ["-i", files[i]]
  {
    assert files[..i + 1][..i] == files[..i];
  }

  lemma DelayPartsStep(starts: seq<real>, i: nat)
    requires i < |starts|
    ensures DelayParts(starts[..i + 1]) == DelayParts(starts[..i]) + [DelayPart(i, DelayMs(starts[i]))]
  {
    assert forall k :: 0 <= k < i ==> starts[..i + 1][k] == starts[..i][k];
  }

  lemma NoSemicolonInNumber(n: int)
    ensures ';' !in IntToString(n)
  {
    NoNonDigitIn(';', if n < 0 then -n else n);
  }

  lemma NoSemicolonInParts(starts: seq<real>)
    ensures forall i :: 0 <= i < |DelayParts(starts)| ==> ';' !in DelayParts(starts)[i]
  {
    forall i | 0 <= i < |starts|
      ensures ';' !in DelayPart(i, DelayMs(starts[i]))
    {
      NoSemicolonInPart(i, DelayMs(starts[i]));
    }
  }

  lemma NoSemicolonInPart(i: nat, ms: int)
    ensures ';' !in DelayPart(i, ms)
  {
    NoNonDigitIn(';', i + 1);
    NoNonDigitIn(';', i);
    NoSemicolonInNumber(ms);
  }

  lemma {:induction false} NoSemicolonInMix(n: nat)
    ensures ';' !in MixStage(n)
  {
    NoSemicolonInLabels(n);
    assert ';' !in MixTail(n) by {
      NoNonDigitIn(';', n + 1);
    }
  }

  lemma {:induction false} NoSemicolonInLabels(n: nat)
    ensures ';' !in MixLabels(n)
  {
    if n > 0 {
      NoSemicolonInLabels(n - 1);
      NoNonDigitIn(';', n - 1);
    }
  }

  /** Read back at its `;` separators, the filter graph is the delay filters
      of the paired clips in order (a single empty filter when there are
      none) followed by the mix stage. */
  lemma FilterGraphPieces(files: seq<string>, starts: seq<real>)
    ensures var parts := DelayParts(starts[..Paired(files, starts)]);
            Split(FilterGraph(files, starts), ';') == (if parts == [] then [""] else parts) + [MixStage(|files|)]
  {
    var parts := DelayParts(starts[..Paired(files, starts)]);
    var mix := MixStage(|files|);
    NoSemicolonInMix(|files|);
    SplitFree(mix, ';');
    if parts == [] {
      assert FilterGraph(files, starts) == [] + [';'] + mix;
      SplitAfterPiece([], ';', mix);
    } else {
      NoSemicolonInParts(starts[..Paired(files, starts)]);
      SplitJoinThen(parts, ';', mix);
    }
  }

  lemma {:induction false} MixLabelsPrefix(i: nat, n: nat)
    requires i <= n
    ensures IsPrefix(MixLabels(i), MixLabels(n))
    decreases n - i
  {
    if i < n {
      MixLabelsPrefix(i, n - 1);
    }
  }

  /** The label of clip `i` sits right after those of the clips before it. */
  lemma LabelInLabels(i: nat, n: nat)
    requires i < n
    ensures OccursAt(MixLabels(n), Label(i), |MixLabels(i)|)
  {
    MixLabelsPrefix(i + 1, n);
    assert MixLabels(i + 1) == MixLabels(i) + Label(i);
    OccursAfterPrefix(MixLabels(i), Label(i), MixLabels(n));
  }

  lemma OccursAfterPrefix(a: string, b: string, s: string)
    requires IsPrefix(a + b, s)
    ensures OccursAt(s, b, |a|)
  {
    assert s[..|a| + |b|][|a|..] == s[|a|..|a| + |b|];
  }

  /** An occurrence stays an occurrence inside a longer string. */
  lemma OccursInside(pre: string, mid: string, post: string, p: string, k: nat)
    requires OccursAt(mid, p, k)
    ensures OccursAt(pre + mid + post, p, |pre| + k)
  {
    var s := pre + mid + post;
    assert s[|pre|..|pre| + |mid|] == mid;
    assert s[|pre| + k..|pre| + k + |p|] == mid[k..k + |p|];
  }

  /** The mix stage takes in the delayed copy of every clip: for each
      `i < n` the label `[d{i}]` occurs in it. */
  lemma MixTakesEveryClip(i: nat, n: nat)
    requires i < n
    ensures Contains(MixStage(n), Label(i))
  {
    LabelInLabels(i, n);
    OccursInside("[0]", MixLabels(n), MixTail(n), Label(i), |MixLabels(i)|);
    ContainsIff(MixStage(n), Label(i));
  }
}

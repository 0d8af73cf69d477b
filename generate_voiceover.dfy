/** The promo-video skill's voiceover generator: its `sections` table, and
    `check_timing_alignment`, which compares the transcript segments of the
    finished voiceover with the scene windows the table defines. The
    per-section loop and the mixing command are shared with the IceCubePromo
    renderer and live in `AudioMix`. */
module GenerateVoiceover {
  import opened Wrappers
  import opened Text
  import opened AudioMix

  /** Length of the video, and so of the silent base track, in seconds. */
  const VideoDuration := 60

  const Sections: seq<Section> := [
    Section(0.0, "Every missed call costs you money."),
    Section(5.0, "Your service drive is overwhelmed."),
    Section(9.0, "Four hours to call back? That's too late."),
    Section(13.0, "Customers won't wait."),
    Section(17.0, "Introducing Your Product. Turn problems into solutions."),
    Section(21.0, "Feature one described here, so you get the benefit."),
    Section(26.0, "Feature two described here, so you get the benefit."),
    Section(31.0, "Feature three described here, so you get the benefit."),
    Section(36.0, "Feature four described here, so you get the benefit."),
    Section(41.0, "Feature five described here, so you get the benefit."),
    Section(46.0, "The results speak for themselves. Better outcomes. Real results."),
    Section(52.0, "Your Product. Your tagline. Request your demo today.")
  ]

  /** The end of section `i`'s window: the next section's start, or the end
      of the video for the last one. */
  function NextStart(sections: seq<Section>, i: nat): real
    requires i < |sections|
  {
    if i + 1 < |sections| then sections[i + 1].start else VideoDuration as real
  }

  /** A table whose start times increase and stay inside the video. */
  predicate WellTimed(sections: seq<Section>)
  {
    (forall i :: 1 <= i < |sections| ==> sections[i - 1].start < sections[i].start)
    && forall i :: 0 <= i < |sections| ==> 0.0 <= sections[i].start < VideoDuration as real
  }

  /** In a well-timed table every section's window is non-empty. */
  lemma WindowsNonEmpty(sections: seq<Section>, i: nat)
    requires WellTimed(sections) && i < |sections|
    ensures sections[i].start < NextStart(sections, i)
  {
    if i + 1 < |sections| {
      assert sections[(i + 1) - 1].start < sections[i + 1].start;
    }
  }

  /** The shipped table is well timed, and its delays are whole seconds. */
  lemma SectionsWellTimed()
    ensures WellTimed(Sections)
    ensures forall i :: 0 <= i < |Sections| ==> DelayMs(Sections[i].start) == Sections[i].start.Floor * 1000
  {
    TableStarts();
    ShippedStartsWellTimed(StartTimes(Sections));
  }

  lemma TableStarts()
    ensures StartTimes(Sections) == [0.0, 5.0, 9.0, 13.0, 17.0, 21.0, 26.0, 31.0, 36.0, 41.0, 46.0, 52.0]
  {
  }

  lemma ShippedStartsWellTimed(st: seq<real>)
    requires st == [0.0, 5.0, 9.0, 13.0, 17.0, 21.0, 26.0, 31.0, 36.0, 41.0, 46.0, 52.0]
    ensures forall i :: 1 <= i < |st| ==> st[i - 1] < st[i]
    ensures forall i :: 0 <= i < |st| ==> 0.0 <= st[i] < VideoDuration as real
    ensures forall i :: 0 <= i < |st| ==> DelayMs(st[i]) == st[i].Floor * 1000
  {
    forall i | 0 <= i < |st|
      ensures DelayMs(st[i]) == st[i].Floor * 1000
    {
      WholeSecondDelay(st[i]);
    }
  }

  /** A start on a whole second is delayed by that many thousand milliseconds. */
  lemma WholeSecondDelay(x: real)
    requires 0.0 <= x && x == x.Floor as real
    ensures DelayMs(x) == x.Floor * 1000
  {
    assert x * 1000.0 == (x.Floor * 1000) as real;
  }

  // ---------------------------------------------------------------------
  // Timing check

  /** A transcript segment; each key may be missing. */
  datatype Segment = Segment(text: Option<string>, start: Option<real>, end: Option<real>)

  /** `seg.get("text", "")`, `seg.get("start", 0)`, `seg.get("end", 0)` */
  function SegText(seg: Segment): string { seg.text.GetOr("") }
  function SegStart(seg: Segment): real { seg.start.GetOr(0.0) }
  function SegEnd(seg: Segment): real { seg.end.GetOr(0.0) }

  /** The two problems the check reports. */
  datatype Issue =
    | StartsTooEarly(section: nat, expected: real, actual: real)
    | OverlapsNextScene(section: nat, endsAt: real, nextStart: real)

  /** A segment belongs to a section when its text contains the first 20
      characters of the section's text, ignoring case. */
  predicate Matches(text: string, seg: Segment)
  {
    Contains(Lower(SegText(seg)), Lower(Take(text, 20)))
  }

  /** The first segment from `from` on that belongs to a section with `text`. */
  function FirstMatch(text: string, segments: seq<Segment>, from: nat): (r: Option<nat>)
    ensures r.Some? ==> from <= r.value < |segments| && Matches(text, segments[r.value])
                        && forall j :: from <= j < r.value ==> !Matches(text, segments[j])
    ensures r.None? ==> forall j :: from <= j < |segments| ==> !Matches(text, segments[j])
    decreases |segments| - from
  {
    if from >= |segments| then None
    else if Matches(text, segments[from]) then Some(from)
    else FirstMatch(text, segments, from + 1)
  }

  /** What section `i` contributes: nothing without a matching segment;
      otherwise an early start when its segment begins more than half a
      second before the section, then an overlap when it ends after the
      window. A late start is never reported. */
  function SectionIssues(sections: seq<Section>, segments: seq<Segment>, i: nat): (r: seq<Issue>)
    requires i < |sections|
    ensures |r| <= 2
    ensures forall k :: 0 <= k < |r| ==> r[k].section == i
    ensures |r| == 2 ==> r[0].StartsTooEarly? && r[1].OverlapsNextScene?
  {
    match FirstMatch(sections[i].text, segments, 0)
    case None => []
    case Some(j) =>
      var seg := segments[j];
      var startTime := sections[i].start;
      var nextStart := NextStart(sections, i);
      (if SegStart(seg) < startTime - 0.5 then [StartsTooEarly(i, startTime, SegStart(seg))] else [])
      + (if SegEnd(seg) > nextStart then [OverlapsNextScene(i, SegEnd(seg), nextStart)] else [])
  }

  /** The issue lists of the sections, in section order. */
  function PerSection(sections: seq<Section>, segments: seq<Segment>): (ps: seq<seq<Issue>>)
    ensures |ps| == |sections| && forall i :: 0 <= i < |ps| ==> ps[i] == SectionIssues(sections, segments, i)
  {
    seq(|sections|, i requires 0 <= i < |sections| => SectionIssues(sections, segments, i))
  }

  /** The lists one after the other. */
  function Flatten(parts: seq<seq<Issue>>): seq<Issue>
  {
    if parts == [] then [] else Flatten(parts[..|parts| - 1]) + parts[|parts| - 1]
  }

  /** Every issue of list `k` names section `k`, and no list has more than two. */
  predicate Labelled(parts: seq<seq<Issue>>)
  {
    forall k :: 0 <= k < |parts| ==> |parts[k]| <= 2 && forall j :: 0 <= j < |parts[k]| ==> parts[k][j].section == k
  }

  /** Everything the check reports, section by section. */
  function TimingIssues(sections: seq<Section>, segments: seq<Segment>): seq<Issue>
  {
    Flatten(PerSection(sections, segments))
  }

  /** `check_timing_alignment(segments, sections)` */
  method CheckTimingAlignment(segments: seq<Segment>, sections: seq<Section>) returns (issues: seq<Issue>)
    ensures issues == TimingIssues(sections, segments)
  {
    ghost var ps := PerSection(sections, segments);
    issues := [];
    var i := 0;
    while i < |sections|
      invariant 0 <= i <= |sections|
      invariant issues == Flatten(ps[..i])
    {
      assert ps[..i + 1][..i] == ps[..i];
      issues := CheckSection(segments, sections, i, issues);
      i := i + 1;
    }
    assert ps[..|sections|] == ps;
  }

  /** One pass of the outer loop of `check_timing_alignment`: the scan of
      the segments for section `i`, which stops at the first match. */
  method CheckSection(segments: seq<Segment>, sections: seq<Section>, i: nat, before: seq<Issue>)
    returns (issues: seq<Issue>)
    requires i < |sections|
    ensures issues == before + SectionIssues(sections, segments, i)
  {
    issues := before;
    var startTime, text := sections[i].start, sections[i].text;
    var nextStart := if i + 1 < |sections| then sections[i + 1].start else VideoDuration as real;
    var j := 0;
    while j < |segments|
      invariant 0 <= j <= |segments|
      invariant forall k :: 0 <= k < j ==> !Matches(text, segments[k])
      invariant issues == before
    {
      var seg := segments[j];
      if Matches(text, seg) {
        MatchedSection(sections, segments, i, j);
        var actualStart, actualEnd := SegStart(seg), SegEnd(seg);
        if actualStart < startTime - 0.5 {
          issues := issues + [StartsTooEarly(i, startTime, actualStart)];
        }
        if actualEnd > nextStart {
          issues := issues + [OverlapsNextScene(i, actualEnd, nextStart)];
        }
        return;
      }
      j := j + 1;
    }
    UnmatchedSection(sections, segments, i);
  }

  /** When segment `j` is the first to match section `i`, the section's
      issues are read off that segment. */
  lemma MatchedSection(sections: seq<Section>, segments: seq<Segment>, i: nat, j: nat)
    requires i < |sections| && j < |segments|
    requires Matches(sections[i].text, segments[j])
    requires forall k :: 0 <= k < j ==> !Matches(sections[i].text, segments[k])
    ensures var seg, startTime, nextStart := segments[j], sections[i].start, NextStart(sections, i);
            SectionIssues(sections, segments, i)
            == (if SegStart(seg) < startTime - 0.5 then [StartsTooEarly(i, startTime, SegStart(seg))] else [])
               + (if SegEnd(seg) > nextStart then [OverlapsNextScene(i, SegEnd(seg), nextStart)] else [])
  {
    assert FirstMatch(sections[i].text, segments, 0) == Some(j);
  }

  /** A section that no segment matches adds nothing. */
  lemma UnmatchedSection(sections: seq<Section>, segments: seq<Segment>, i: nat)
    requires i < |sections|
    requires forall k :: 0 <= k < |segments| ==> !Matches(sections[i].text, segments[k])
    ensures SectionIssues(sections, segments, i) == []
  {
    assert FirstMatch(sections[i].text, segments, 0).None?;
  }

  /** The prefix of a labelled family is labelled. */
  lemma LabelledPrefix(parts: seq<seq<Issue>>, n: nat)
    requires Labelled(parts) && n <= |parts|
    ensures Labelled(parts[..n])
  {
    assert forall k :: 0 <= k < n ==> parts[..n][k] == parts[k];
  }

  /** Flattening a labelled family keeps section order, names only
      sections that exist, and yields at most two issues per section. */
  lemma {:induction false} FlattenShape(parts: seq<seq<Issue>>)
    requires Labelled(parts)
    ensures var r := Flatten(parts);
            && |r| <= 2 * |parts|
            && (forall k :: 0 <= k < |r| ==> r[k].section < |parts|)
            && (forall a, b :: 0 <= a < b < |r| ==> r[a].section <= r[b].section)
  {
    if parts != [] {
      var n := |parts|;
      var init := Flatten(parts[..n - 1]);
      var last := parts[n - 1];
      LabelledPrefix(parts, n - 1);
      FlattenShape(parts[..n - 1]);
      var r := init + last;
      assert r == Flatten(parts);
      forall k | 0 <= k < |r|
        ensures r[k].section < n
        ensures k >= |init| ==> r[k].section == n - 1
      {
        if k >= |init| {
          assert r[k] == last[k - |init|];
        } else {
          assert r[k] == init[k];
        }
      }
      forall a, b | 0 <= a < b < |r|
        ensures r[a].section <= r[b].section
      {
        if b < |init| {
          assert r[a] == init[a] && r[b] == init[b];
        }
      }
    }
  }

  /** In a flattened labelled family, the issues naming section `i` are
      exactly those of list `i`. */
  lemma {:induction false} FlattenMember(parts: seq<seq<Issue>>, i: nat, x: Issue)
    requires Labelled(parts) && i < |parts|
    ensures x in Flatten(parts) && x.section == i <==> x in parts[i]
  {
    var n := |parts|;
    var init := parts[..n - 1];
    var last := parts[n - 1];
    LabelledPrefix(parts, n - 1);
    assert Flatten(parts) == Flatten(init) + last;
    assert x in last ==> x.section == n - 1 by {
      if x in last {
        var k :| 0 <= k < |last| && last[k] == x;
      }
    }
    if i == n - 1 {
      assert x in Flatten(init) ==> x.section < n - 1 by {
        FlattenShape(init);
        if x in Flatten(init) {
          var k :| 0 <= k < |Flatten(init)| && Flatten(init)[k] == x;
        }
      }
    } else {
      FlattenMember(init, i, x);
      assert init[i] == parts[i];
    }
  }

  /** The sections' own lists are labelled with their sections. */
  lemma PerSectionLabelled(sections: seq<Section>, segments: seq<Segment>)
    ensures Labelled(PerSection(sections, segments))
  {
  }

  /** The whole check: at most two issues per section, in section order. */
  lemma TimingIssuesShape(sections: seq<Section>, segments: seq<Segment>)
    ensures var r := TimingIssues(sections, segments);
            && |r| <= 2 * |sections|
            && (forall k :: 0 <= k < |r| ==> r[k].section < |sections|)
            && (forall a, b :: 0 <= a < b < |r| ==> r[a].section <= r[b].section)
  {
    PerSectionLabelled(sections, segments);
    FlattenShape(PerSection(sections, segments));
  }

  /** The issues naming section `i` are exactly the ones it contributes. */
  lemma IssuesOfSection(sections: seq<Section>, segments: seq<Segment>, i: nat, x: Issue)
    requires i < |sections|
    ensures x in TimingIssues(sections, segments) && x.section == i <==> x in SectionIssues(sections, segments, i)
  {
    PerSectionLabelled(sections, segments);
    FlattenMember(PerSection(sections, segments), i, x);
  }

  /** Section `i` is reported as starting too early iff it has a matching
      segment, and the first one starts more than half a second before it. */
  lemma EarlyStartReported(sections: seq<Section>, segments: seq<Segment>, i: nat)
    requires i < |sections|
    ensures (exists a :: StartsTooEarly(i, sections[i].start, a) in TimingIssues(sections, segments))
        <==> (var m := FirstMatch(sections[i].text, segments, 0);
              m.Some? && SegStart(segments[m.value]) < sections[i].start - 0.5)
  {
    forall a ensures StartsTooEarly(i, sections[i].start, a) in TimingIssues(sections, segments)
                     <==> StartsTooEarly(i, sections[i].start, a) in SectionIssues(sections, segments, i)
    {
      IssuesOfSection(sections, segments, i, StartsTooEarly(i, sections[i].start, a));
    }
    EarlyInSection(sections, segments, i);
  }

  lemma EarlyInSection(sections: seq<Section>, segments: seq<Segment>, i: nat)
    requires i < |sections|
    ensures (exists a :: StartsTooEarly(i, sections[i].start, a) in SectionIssues(sections, segments, i))
        <==> (var m := FirstMatch(sections[i].text, segments, 0);
              m.Some? && SegStart(segments[m.value]) < sections[i].start - 0.5)
  {
    var m := FirstMatch(sections[i].text, segments, 0);
    if m.Some? {
      var a := SegStart(segments[m.value]);
      if a < sections[i].start - 0.5 {
        assert StartsTooEarly(i, sections[i].start, a) in SectionIssues(sections, segments, i);
      }
    }
  }

  /** Section `i` is reported as running into the next scene iff it has a
      matching segment, and the first one ends after the section's window. */
  lemma OverlapReported(sections: seq<Section>, segments: seq<Segment>, i: nat)
    requires i < |sections|
    ensures (exists e :: OverlapsNextScene(i, e, NextStart(sections, i)) in TimingIssues(sections, segments))
        <==> (var m := FirstMatch(sections[i].text, segments, 0);
              m.Some? && SegEnd(segments[m.value]) > NextStart(sections, i))
  {
    var ns := NextStart(sections, i);
    forall e ensures OverlapsNextScene(i, e, ns) in TimingIssues(sections, segments)
                     <==> OverlapsNextScene(i, e, ns) in SectionIssues(sections, segments, i)
    {
      IssuesOfSection(sections, segments, i, OverlapsNextScene(i, e, ns));
    }
    OverlapInSection(sections, segments, i);
  }

  lemma OverlapInSection(sections: seq<Section>, segments: seq<Segment>, i: nat)
    requires i < |sections|
    ensures (exists e :: OverlapsNextScene(i, e, NextStart(sections, i)) in SectionIssues(sections, segments, i))
        <==> (var m := FirstMatch(sections[i].text, segments, 0);
              m.Some? && SegEnd(segments[m.value]) > NextStart(sections, i))
  {
    var m := FirstMatch(sections[i].text, segments, 0);
    var ns := NextStart(sections, i);
    if m.Some? {
      var e := SegEnd(segments[m.value]);
      if e > ns {
        assert OverlapsNextScene(i, e, ns) in SectionIssues(sections, segments, i);
      }
    }
  }

  /** A section with no matching segment is never mentioned. */
  lemma UnmatchedSectionSilent(sections: seq<Section>, segments: seq<Segment>, i: nat)
    requires i < |sections|
    requires forall j :: 0 <= j < |segments| ==> !Matches(sections[i].text, segments[j])
    ensures forall x :: x in TimingIssues(sections, segments) ==> x.section != i
  {
    forall x | x in TimingIssues(sections, segments)
      ensures x.section != i
    {
      IssuesOfSection(sections, segments, i, x);
    }
  }

  /** Only the first matching segment counts: segments after it can be
      changed or added without changing what the section contributes. */
  lemma LaterSegmentsIgnored(sections: seq<Section>, segments: seq<Segment>, more: seq<Segment>, i: nat)
    requires i < |sections|
    requires FirstMatch(sections[i].text, segments, 0).Some?
    ensures SectionIssues(sections, segments + more, i) == SectionIssues(sections, segments, i)
  {
    var text := sections[i].text;
    var j := FirstMatch(text, segments, 0).value;
    assert (segments + more)[j] == segments[j];
    assert forall k :: 0 <= k < j ==> (segments + more)[k] == segments[k];
    assert FirstMatch(text, segments + more, 0) == Some(j);
  }
}

/** The IceCubePromo voiceover renderer: its `sections` table, timed to the
    six scenes of the 18.3-second composition, and the character count it
    reports. The per-section loop and the mixing command are the ones in
    `AudioMix`. */
module RenderVoiceover {
  import opened AudioMix

  /** Length of the silent base track in seconds. */
  const VideoDuration := 19

  const Sections: seq<Section> := [
    Section(0.8, "Time... but not like you know it."),
    Section(3.5, "Introducing Ice Chronos."),
    Section(6.5, "A clock app carved from ice. Beautiful. Minimal. Yours."),
    Section(10.0, "Smart alarms. Precision timers. World clock."),
    Section(13.2, "Four point nine stars. Half a million downloads."),
    Section(15.8, "Ice Chronos. A cooler way to keep time.")
  ]

  /** `sum(len(text) for _, text in sections)` */
  function TotalChars(sections: seq<Section>): nat
  {
    if sections == [] then 0 else TotalChars(sections[..|sections| - 1]) + |sections[|sections| - 1].text|
  }

  /** The count of two tables back to back is the sum of their counts. */
  lemma {:induction false} TotalCharsAppend(a: seq<Section>, b: seq<Section>)
    ensures TotalChars(a + b) == TotalChars(a) + TotalChars(b)
    decreases |b|
  {
    if b == [] {
      assert a + b == a;
    } else {
      var init := b[..|b| - 1];
      assert (a + b)[..|a + b| - 1] == a + init;
      assert (a + b)[|a + b| - 1] == b[|b| - 1];
      assert TotalChars(a + b) == TotalChars(a + init) + |b[|b| - 1].text|;
      TotalCharsAppend(a, init);
    }
  }

  /** Every section's text counts in full, and the count is zero exactly
      when every text is empty. */
  lemma {:induction false} TotalCharsCountsEach(sections: seq<Section>)
    ensures forall i :: 0 <= i < |sections| ==> |sections[i].text| <= TotalChars(sections)
    ensures TotalChars(sections) == 0 <==> forall i :: 0 <= i < |sections| ==> sections[i].text == []
  {
    if sections != [] {
      var init := sections[..|sections| - 1];
      TotalCharsCountsEach(init);
      assert forall i :: 0 <= i < |init| ==> init[i] == sections[i];
    }
  }

  /** The shipped table: 243 characters. */
  lemma SectionsChars()
    ensures TotalChars(Sections) == 243
  {
    assert TotalChars(Sections[..1]) == 33;
    assert Sections[..2][..1] == Sections[..1];
    assert TotalChars(Sections[..2]) == 57;
    assert Sections[..3][..2] == Sections[..2];
    assert TotalChars(Sections[..3]) == 112;
    assert Sections[..4][..3] == Sections[..3];
    assert TotalChars(Sections[..4]) == 156;
    assert Sections[..5][..4] == Sections[..4];
    assert TotalChars(Sections[..5]) == 204;
    assert Sections[..5] == Sections[..|Sections| - 1];
  }

  /** The start times increase, begin after 0 and end before the silent
      base does; each clip is delayed by its start time in whole
      milliseconds. */
  lemma SectionsWellTimed()
    ensures forall i :: 1 <= i < |Sections| ==> Sections[i - 1].start < Sections[i].start
    ensures forall i :: 0 <= i < |Sections| ==> 0.0 < Sections[i].start < VideoDuration as real
    ensures seq(|Sections|, i requires 0 <= i < |Sections| => DelayMs(Sections[i].start))
         == [800, 3500, 6500, 10000, 13200, 15800]
  {
    assert DelayMs(0.8) == 800;
    assert DelayMs(3.5) == 3500;
    assert DelayMs(6.5) == 6500;
    assert DelayMs(10.0) == 10000;
    assert DelayMs(13.2) == 13200;
    assert DelayMs(15.8) == 15800;
  }
}

/** The scene timeline and crossfade compositor of the IceCubePromo video:
    the `SCENES` table, the six `<Sequence>` windows built from it, the
    `CrossfadeTransition` opacity envelope each window applies to its scene,
    and the clamped download counter of the social-proof scene. Frames are
    integers; opacities are exact rationals. */
module IceCubePromo {
  import opened Wrappers
  import opened Remotion

  /** One entry of the `SCENES` table: nominal start frame and length. */
  datatype SceneSpec = SceneSpec(name: string, start: int, duration: int)

  const Scenes: seq<SceneSpec> := [
    SceneSpec("HOOK", 0, 90),
    SceneSpec("APP_REVEAL", 90, 90),
    SceneSpec("PHONE_MOCKUP", 180, 105),
    SceneSpec("FEATURES", 285, 105),
    SceneSpec("SOCIAL_PROOF", 390, 75),
    SceneSpec("CTA", 465, 85)
  ]

  /** The frame at which the last scene ends. */
  const TimelineEnd := 550

  /** The scenes tile the timeline: each starts where the previous one ends,
      the first at frame 0 and the last ends at frame 550. */
  lemma ScenesContiguous()
    ensures Scenes[0].start == 0
    ensures forall i :: 1 <= i < |Scenes| ==> Scenes[i].start == Scenes[i - 1].start + Scenes[i - 1].duration
    ensures Scenes[|Scenes| - 1].start + Scenes[|Scenes| - 1].duration == TimelineEnd
  {
  }

  // ---------------------------------------------------------------------
  // The crossfade envelope

  const DefaultFadeIn := 12
  const DefaultFadeOut := 12

  /** `Math.max(fadeIn + 1, duration - fadeOut)`: the fade-out never starts
      before the frame after the fade-in ends. */
  function FadeOutStart(duration: int, fadeIn: int, fadeOut: int): (r: int)
    ensures r > fadeIn && r >= duration - fadeOut
    ensures r == fadeIn + 1 || r == duration - fadeOut
  {
    if fadeIn + 1 >= duration - fadeOut then fadeIn + 1 else duration - fadeOut
  }

  /** The parameters for which `interpolate` accepts the envelope's ranges:
      a positive fade-in and, with a fade-out, a duration past `fadeIn + 1`. */
  predicate EnvelopeDefined(duration: int, fadeIn: int, fadeOut: int)
  {
    fadeIn > 0 && (fadeOut <= 0 || duration > fadeIn + 1)
  }

  /** The ranges of the envelope without a fade-out are valid iff the fade-in is positive. */
  lemma TwoPointRangeValid(fi: int)
    ensures ValidRanges([0.0, fi as real], [0.0, 1.0]) <==> 0 < fi
  {
    var r := [0.0, fi as real];
    assert StrictlyIncreasing(r) <==> r[0] < r[1];
  }

  /** The ranges of the envelope with a fade-out are valid iff its points increase. */
  lemma FourPointRangeValid(fi: int, s: int, d: int)
    ensures ValidRanges([0.0, fi as real, s as real, d as real], [0.0, 1.0, 1.0, 0.0]) <==> 0 < fi < s < d
  {
    var r := [0.0, fi as real, s as real, d as real];
    assert StrictlyIncreasing(r) <==> r[0] < r[1] && r[1] < r[2] && r[2] < r[3];
  }

  /** The opacity `CrossfadeTransition` gives its child at `localFrame`. */
  function Opacity(localFrame: int, duration: int, fadeIn: int, fadeOut: int): (r: Result<real, InterpolateError>)
    ensures r.Ok? <==> EnvelopeDefined(duration, fadeIn, fadeOut)
  {
    if fadeOut <= 0 then
      TwoPointRangeValid(fadeIn);
      Interpolate(localFrame as real, [0.0, fadeIn as real], [0.0, 1.0])
    else
      var s := FadeOutStart(duration, fadeIn, fadeOut);
      FourPointRangeValid(fadeIn, s, duration);
      Interpolate(localFrame as real, [0.0, fadeIn as real, s as real, duration as real], [0.0, 1.0, 1.0, 0.0])
  }

  /** The intended three-phase shape, written out piece by piece: 0 up to
      the start, a linear rise over the fade-in, 1 while held, and with a
      fade-out a linear fall that reaches 0 at `duration`. */
  function Envelope(localFrame: int, duration: int, fadeIn: int, fadeOut: int): real
    requires EnvelopeDefined(duration, fadeIn, fadeOut)
  {
    if localFrame <= 0 then 0.0
    else if localFrame <= fadeIn then localFrame as real / fadeIn as real
    else if fadeOut <= 0 then 1.0
    else
      var s := FadeOutStart(duration, fadeIn, fadeOut);
      if localFrame <= s then 1.0
      else if localFrame < duration then (duration - localFrame) as real / (duration - s) as real
      else 0.0
  }

  lemma RiseLine(x: real, fi: real)
    requires fi > 0.0
    ensures 0.0 + (x - 0.0) / (fi - 0.0) * (1.0 - 0.0) == x / fi
  {
  }

  lemma FallLine(x: real, s: real, d: real)
    requires s < d
    ensures 1.0 + (x - s) / (d - s) * (0.0 - 1.0) == (d - x) / (d - s)
  {
    var w := d - s;
    assert (d - x) / w == (w - (x - s)) / w;
    assert (w - (x - s)) / w == w / w - (x - s) / w;
    assert w / w == 1.0 by { assert 1.0 * w == w; }
  }

  /** Without a fade-out the envelope is a single clamped rise. */
  lemma EnvelopeWithoutFadeOut(localFrame: int, duration: int, fadeIn: int, fadeOut: int)
    requires fadeIn > 0 && fadeOut <= 0
    ensures Opacity(localFrame, duration, fadeIn, fadeOut) == Ok(Envelope(localFrame, duration, fadeIn, fadeOut))
  {
    var x, fi := localFrame as real, fadeIn as real;
    var inp, out := [0.0, fi], [0.0, 1.0];
    TwoPointRangeValid(fadeIn);
    assert Opacity(localFrame, duration, fadeIn, fadeOut) == Interpolate(x, inp, out);
    if localFrame <= 0 {
      InterpolateClampLeft(x, inp, out);
    } else if localFrame >= fadeIn {
      InterpolateClampRight(x, inp, out);
      assert fi / fi == 1.0 by { assert 1.0 * fi == fi; }
    } else {
      InterpolateOnSegment(x, inp, out, 0);
      RiseLine(x, fi);
    }
  }

  /** With a fade-out, up to the end of the fade-in. */
  lemma EnvelopeRising(localFrame: int, duration: int, fadeIn: int, fadeOut: int)
    requires EnvelopeDefined(duration, fadeIn, fadeOut) && fadeOut > 0 && localFrame <= fadeIn
    ensures Opacity(localFrame, duration, fadeIn, fadeOut) == Ok(Envelope(localFrame, duration, fadeIn, fadeOut))
  {
    var x, fi := localFrame as real, fadeIn as real;
    var s := FadeOutStart(duration, fadeIn, fadeOut);
    var inp, out := [0.0, fi, s as real, duration as real], [0.0, 1.0, 1.0, 0.0];
    FourPointRangeValid(fadeIn, s, duration);
    assert Opacity(localFrame, duration, fadeIn, fadeOut) == Interpolate(x, inp, out);
    if localFrame <= 0 {
      InterpolateClampLeft(x, inp, out);
    } else {
      InterpolateOnSegment(x, inp, out, 0);
      RiseLine(x, fi);
    }
  }

  /** With a fade-out, from the end of the fade-in on. */
  lemma EnvelopeHoldingAndFalling(localFrame: int, duration: int, fadeIn: int, fadeOut: int)
    requires EnvelopeDefined(duration, fadeIn, fadeOut) && fadeOut > 0 && localFrame > fadeIn
    ensures Opacity(localFrame, duration, fadeIn, fadeOut) == Ok(Envelope(localFrame, duration, fadeIn, fadeOut))
  {
    var x, fi := localFrame as real, fadeIn as real;
    var s := FadeOutStart(duration, fadeIn, fadeOut);
    var inp, out := [0.0, fi, s as real, duration as real], [0.0, 1.0, 1.0, 0.0];
    FourPointRangeValid(fadeIn, s, duration);
    assert Opacity(localFrame, duration, fadeIn, fadeOut) == Interpolate(x, inp, out);
    if localFrame <= s {
      InterpolateOnSegment(x, inp, out, 1);
    } else if localFrame < duration {
      InterpolateOnSegment(x, inp, out, 2);
      FallLine(x, s as real, duration as real);
      assert (duration as real - x) == (duration - localFrame) as real;
    } else {
      InterpolateClampRight(x, inp, out);
    }
  }

  /** `CrossfadeTransition`, through Remotion's clamped `interpolate`, draws
      exactly the three-phase envelope. */
  lemma OpacityIsEnvelope(localFrame: int, duration: int, fadeIn: int, fadeOut: int)
    requires EnvelopeDefined(duration, fadeIn, fadeOut)
    ensures Opacity(localFrame, duration, fadeIn, fadeOut) == Ok(Envelope(localFrame, duration, fadeIn, fadeOut))
  {
    if fadeOut <= 0 {
      EnvelopeWithoutFadeOut(localFrame, duration, fadeIn, fadeOut);
    } else if localFrame <= fadeIn {
      EnvelopeRising(localFrame, duration, fadeIn, fadeOut);
    } else {
      EnvelopeHoldingAndFalling(localFrame, duration, fadeIn, fadeOut);
    }
  }

  lemma DivBounds(a: real, b: real)
    requires 0.0 <= a <= b && b > 0.0
    ensures 0.0 <= a / b <= 1.0
  {
    assert a / b * b == a;
  }

  lemma DivMonotone(a: real, c: real, b: real)
    requires a <= c && b > 0.0
    ensures a / b <= c / b
  {
    assert a / b * b == a && c / b * b == c;
  }

  /** For every integer frame, also before the start and past the end, the
      opacity lies in [0, 1]. */
  lemma OpacityInUnitRange(localFrame: int, duration: int, fadeIn: int, fadeOut: int)
    requires EnvelopeDefined(duration, fadeIn, fadeOut)
    ensures Opacity(localFrame, duration, fadeIn, fadeOut).Ok?
    ensures 0.0 <= Opacity(localFrame, duration, fadeIn, fadeOut).value <= 1.0
  {
    OpacityIsEnvelope(localFrame, duration, fadeIn, fadeOut);
    if 0 < localFrame <= fadeIn {
      DivBounds(localFrame as real, fadeIn as real);
    } else if fadeOut > 0 {
      var s := FadeOutStart(duration, fadeIn, fadeOut);
      if s < localFrame < duration {
        DivBounds((duration - localFrame) as real, (duration - s) as real);
      }
    }
  }

  /** With a fade-out: 0 at the first frame, exactly 1 from the end of the
      fade-in through the start of the fade-out, and 0 from `duration` on. */
  lemma OpacityShapeWithFadeOut(localFrame: int, duration: int, fadeIn: int, fadeOut: int)
    requires EnvelopeDefined(duration, fadeIn, fadeOut) && fadeOut > 0
    ensures localFrame <= 0 ==> Opacity(localFrame, duration, fadeIn, fadeOut) == Ok(0.0)
    ensures fadeIn <= localFrame <= FadeOutStart(duration, fadeIn, fadeOut)
            ==> Opacity(localFrame, duration, fadeIn, fadeOut) == Ok(1.0)
    ensures localFrame >= duration ==> Opacity(localFrame, duration, fadeIn, fadeOut) == Ok(0.0)
  {
    OpacityIsEnvelope(localFrame, duration, fadeIn, fadeOut);
    if localFrame == fadeIn {
      var fi := fadeIn as real;
      assert fi / fi == 1.0 by { assert 1.0 * fi == fi; }
    }
  }

  /** Without a fade-out the opacity is the clamped ratio `localFrame / fadeIn`,
      so it stays exactly 1 from the end of the fade-in on. */
  lemma OpacityShapeWithoutFadeOut(localFrame: int, duration: int, fadeIn: int, fadeOut: int)
    requires fadeIn > 0 && fadeOut <= 0
    ensures Opacity(localFrame, duration, fadeIn, fadeOut)
         == Ok(if localFrame <= 0 then 0.0 else if localFrame >= fadeIn then 1.0 else localFrame as real / fadeIn as real)
  {
    OpacityIsEnvelope(localFrame, duration, fadeIn, fadeOut);
    if localFrame == fadeIn {
      var fi := fadeIn as real;
      assert fi / fi == 1.0 by { assert 1.0 * fi == fi; }
    }
  }

  /** The opacity never decreases during the fade-in. */
  lemma OpacityRisesDuringFadeIn(a: int, b: int, duration: int, fadeIn: int, fadeOut: int)
    requires EnvelopeDefined(duration, fadeIn, fadeOut)
    requires 0 <= a <= b <= fadeIn
    ensures Opacity(a, duration, fadeIn, fadeOut).value <= Opacity(b, duration, fadeIn, fadeOut).value
  {
    OpacityIsEnvelope(a, duration, fadeIn, fadeOut);
    OpacityIsEnvelope(b, duration, fadeIn, fadeOut);
    DivMonotone(a as real, b as real, fadeIn as real);
    if a == 0 {
      DivBounds(b as real, fadeIn as real);
    }
  }

  /** With a fade-out, the opacity never increases from the start of the
      fade-out to `duration`. */
  lemma OpacityFallsDuringFadeOut(a: int, b: int, duration: int, fadeIn: int, fadeOut: int)
    requires EnvelopeDefined(duration, fadeIn, fadeOut) && fadeOut > 0
    requires FadeOutStart(duration, fadeIn, fadeOut) <= a <= b <= duration
    ensures Opacity(a, duration, fadeIn, fadeOut).value >= Opacity(b, duration, fadeIn, fadeOut).value
  {
    var s := FadeOutStart(duration, fadeIn, fadeOut);
    OpacityIsEnvelope(a, duration, fadeIn, fadeOut);
    OpacityIsEnvelope(b, duration, fadeIn, fadeOut);
    if s < a && b < duration {
      DivMonotone((duration - b) as real, (duration - a) as real, (duration - s) as real);
    } else if s < a {
      DivBounds((duration - a) as real, (duration - s) as real);
    } else if s < b < duration {
      DivBounds((duration - b) as real, (duration - s) as real);
    }
  }

  /** Strictly inside its window a scene is never fully transparent. */
  lemma OpacityPositiveInside(localFrame: int, duration: int, fadeIn: int, fadeOut: int)
    requires EnvelopeDefined(duration, fadeIn, fadeOut)
    requires 0 < localFrame && (fadeOut > 0 ==> localFrame < duration)
    ensures Opacity(localFrame, duration, fadeIn, fadeOut).value > 0.0
  {
    OpacityIsEnvelope(localFrame, duration, fadeIn, fadeOut);
  }

  /** The hook scene's 105-frame window with the default 12/12 fades. */
  lemma HookEnvelopeExample()
    ensures FadeOutStart(105, 12, 12) == 93
    ensures Opacity(0, 105, 12, 12) == Ok(0.0)
    ensures Opacity(12, 105, 12, 12) == Ok(1.0)
    ensures Opacity(93, 105, 12, 12) == Ok(1.0)
    ensures Opacity(104, 105, 12, 12) == Ok(1.0 / 12.0)
    ensures Opacity(105, 105, 12, 12) == Ok(0.0)
  {
    OpacityShapeWithFadeOut(0, 105, 12, 12);
    OpacityShapeWithFadeOut(12, 105, 12, 12);
    OpacityShapeWithFadeOut(93, 105, 12, 12);
    OpacityShapeWithFadeOut(105, 105, 12, 12);
    OpacityIsEnvelope(104, 105, 12, 12);
  }

  // ---------------------------------------------------------------------
  // The timeline

  /** A `<Sequence from durationInFrames>` together with the
      `<CrossfadeTransition startFrame duration fadeIn fadeOut>` it wraps. */
  datatype Track = Track(scene: string, from: int, durationInFrames: int,
                         fadeStart: int, fadeDuration: int, fadeIn: int, fadeOut: int)

  /** The six windows of `IceCubePromo`: the hook from its start for its
      duration plus 15, every later scene from 5 frames before its start, for
      its duration plus 15, except the call to action, which gets plus 5 and
      no fade-out. */
  const Tracks: seq<Track> := [
    Track(Scenes[0].name, Scenes[0].start, Scenes[0].duration + 15, 0, Scenes[0].duration + 15, DefaultFadeIn, DefaultFadeOut),
    Track(Scenes[1].name, Scenes[1].start - 5, Scenes[1].duration + 15, 0, Scenes[1].duration + 15, DefaultFadeIn, DefaultFadeOut),
    Track(Scenes[2].name, Scenes[2].start - 5, Scenes[2].duration + 15, 0, Scenes[2].duration + 15, DefaultFadeIn, DefaultFadeOut),
    Track(Scenes[3].name, Scenes[3].start - 5, Scenes[3].duration + 15, 0, Scenes[3].duration + 15, DefaultFadeIn, DefaultFadeOut),
    Track(Scenes[4].name, Scenes[4].start - 5, Scenes[4].duration + 15, 0, Scenes[4].duration + 15, DefaultFadeIn, DefaultFadeOut),
    Track(Scenes[5].name, Scenes[5].start - 5, Scenes[5].duration + 5, 0, Scenes[5].duration + 5, DefaultFadeIn, 0)
  ]

  predicate TrackShows(t: Track, frame: int)
  {
    SequenceShows(t.from, t.durationInFrames, frame)
  }

  predicate TrackDefined(t: Track)
  {
    EnvelopeDefined(t.fadeDuration, t.fadeIn, t.fadeOut)
  }

  /** The opacity of a track at a global frame: the crossfade sees the
      sequence-local frame minus its own start frame. */
  function TrackOpacity(t: Track, frame: int): Result<real, InterpolateError>
  {
    Opacity(SequenceLocalFrame(t.from, frame) - t.fadeStart, t.fadeDuration, t.fadeIn, t.fadeOut)
  }

  /** One scene drawn at a frame: which track, the frame the scene sees, and
      the opacity it is drawn with. */
  datatype Layer = Layer(track: nat, scene: string, localFrame: int, opacity: real)

  /** The tracks, from index `i` on, whose sequence shows `frame`, in order. */
  function ShowingFrom(tracks: seq<Track>, frame: int, i: nat): seq<nat>
    decreases |tracks| - i
  {
    if i >= |tracks| then []
    else (if TrackShows(tracks[i], frame) then [i] else []) + ShowingFrom(tracks, frame, i + 1)
  }

  /** `ShowingFrom` lists, in increasing order, exactly the tracks from `i`
      on whose window contains `frame`. */
  lemma ShowingFromExact(tracks: seq<Track>, frame: int, i: nat)
    ensures var r := ShowingFrom(tracks, frame, i);
            && (forall j :: 0 <= j < |r| ==> i <= r[j] < |tracks| && TrackShows(tracks[r[j]], frame))
            && (forall k :: i <= k < |tracks| && TrackShows(tracks[k], frame) ==> k in r)
            && (forall a, b :: 0 <= a < b < |r| ==> r[a] < r[b])
  {
    ShowingFromSound(tracks, frame, i);
    ShowingFromComplete(tracks, frame, i);
    ShowingFromIncreasing(tracks, frame, i);
  }

  /** Every listed track is at or after `i` and shows `frame`. */
  lemma {:induction false} ShowingFromSound(tracks: seq<Track>, frame: int, i: nat)
    ensures forall j :: 0 <= j < |ShowingFrom(tracks, frame, i)| ==>
              i <= ShowingFrom(tracks, frame, i)[j] < |tracks|
              && TrackShows(tracks[ShowingFrom(tracks, frame, i)[j]], frame)
    decreases |tracks| - i
  {
    if i < |tracks| {
      ShowingFromSound(tracks, frame, i + 1);
      var head: seq<nat> := if TrackShows(tracks[i], frame) then [i] else [];
      var rest := ShowingFrom(tracks, frame, i + 1);
      var r := head + rest;
      assert ShowingFrom(tracks, frame, i) == r;
      forall j | 0 <= j < |r|
        ensures i <= r[j] < |tracks| && TrackShows(tracks[r[j]], frame)
      {
        if j < |head| {
          assert r[j] == i;
        } else {
          assert r[j] == rest[j - |head|];
        }
      }
    }
  }

  /** Every track at or after `i` that shows `frame` is listed. */
  lemma {:induction false} ShowingFromComplete(tracks: seq<Track>, frame: int, i: nat)
    ensures forall k :: i <= k < |tracks| && TrackShows(tracks[k], frame) ==> k in ShowingFrom(tracks, frame, i)
    decreases |tracks| - i
  {
    if i < |tracks| {
      ShowingFromComplete(tracks, frame, i + 1);
      var head: seq<nat> := if TrackShows(tracks[i], frame) then [i] else [];
      var rest := ShowingFrom(tracks, frame, i + 1);
      assert ShowingFrom(tracks, frame, i) == head + rest;
      forall k | i <= k < |tracks| && TrackShows(tracks[k], frame)
        ensures k in head + rest
      {
        if k == i {
          assert k in head;
        } else {
          assert k in rest;
        }
      }
    }
  }

  /** The listed tracks are in increasing order. */
  lemma {:induction false} ShowingFromIncreasing(tracks: seq<Track>, frame: int, i: nat)
    ensures forall a, b :: 0 <= a < b < |ShowingFrom(tracks, frame, i)| ==>
              ShowingFrom(tracks, frame, i)[a] < ShowingFrom(tracks, frame, i)[b]
    decreases |tracks| - i
  {
    if i < |tracks| {
      ShowingFromIncreasing(tracks, frame, i + 1);
      ShowingFromSound(tracks, frame, i + 1);
      var head: seq<nat> := if TrackShows(tracks[i], frame) then [i] else [];
      var rest := ShowingFrom(tracks, frame, i + 1);
      assert ShowingFrom(tracks, frame, i) == head + rest;
      assert forall j :: 0 <= j < |rest| ==> i + 1 <= rest[j] < |tracks| && TrackShows(tracks[rest[j]], frame);
      PrependIndex(head, rest, i);
    }
  }

  /** Putting index `i` (or nothing) in front of an increasing list of
      indices above `i` keeps it increasing. */
  lemma PrependIndex(head: seq<nat>, rest: seq<nat>, i: nat)
    requires head == [] || head == [i]
    requires forall j :: 0 <= j < |rest| ==> i < rest[j]
    requires forall a, b :: 0 <= a < b < |rest| ==> rest[a] < rest[b]
    ensures forall a, b :: 0 <= a < b < |head + rest| ==> (head + rest)[a] < (head + rest)[b]
  {
    var r := head + rest;
    assert forall j :: |head| <= j < |r| ==> r[j] == rest[j - |head|];
  }

  /** The layers drawn at `frame`, from track `i` on: one per showing track,
      in declaration order, so that later scenes are drawn over earlier ones.
      Rendering fails with the error of the first showing track whose
      envelope `interpolate` rejects. */
  function LayersFrom(tracks: seq<Track>, frame: int, i: nat): Result<seq<Layer>, InterpolateError>
    decreases |tracks| - i
  {
    if i >= |tracks| then Ok([])
    else
      var t := tracks[i];
      if !TrackShows(t, frame) then LayersFrom(tracks, frame, i + 1)
      else
        match TrackOpacity(t, frame)
        case Err(e) => Err(e)
        case Ok(v) =>
          match LayersFrom(tracks, frame, i + 1)
          case Err(e) => Err(e)
          case Ok(rest) => Ok([Layer(i, t.scene, SequenceLocalFrame(t.from, frame), v)] + rest)
  }

  /** The compositor: what the timeline draws at `frame`. */
  function Layers(tracks: seq<Track>, frame: int): Result<seq<Layer>, InterpolateError>
  {
    LayersFrom(tracks, frame, 0)
  }

  /** The layer track `k` contributes at `frame`. */
  function LayerOf(tracks: seq<Track>, k: nat, frame: int): Layer
    requires k < |tracks| && TrackDefined(tracks[k])
  {
    var t := tracks[k];
    Layer(k, t.scene, SequenceLocalFrame(t.from, frame), TrackOpacity(t, frame).value)
  }

  /** Rendering from track `i` on succeeds exactly when every showing track
      has a well-formed envelope. */
  lemma {:induction false} LayersFromOk(tracks: seq<Track>, frame: int, i: nat)
    ensures LayersFrom(tracks, frame, i).Ok?
        <==> forall k :: i <= k < |tracks| && TrackShows(tracks[k], frame) ==> TrackDefined(tracks[k])
    decreases |tracks| - i
  {
    if i < |tracks| {
      LayersFromOk(tracks, frame, i + 1);
    }
  }

  /** A successful rendering from track `i` on yields one layer per showing
      track, in order. */
  lemma {:induction false} LayersFromShowing(tracks: seq<Track>, frame: int, i: nat)
    requires LayersFrom(tracks, frame, i).Ok?
    ensures |LayersFrom(tracks, frame, i).value| == |ShowingFrom(tracks, frame, i)|
    ensures forall j :: 0 <= j < |ShowingFrom(tracks, frame, i)| ==>
              ShowingFrom(tracks, frame, i)[j] < |tracks|
              && TrackDefined(tracks[ShowingFrom(tracks, frame, i)[j]])
              && LayersFrom(tracks, frame, i).value[j] == LayerOf(tracks, ShowingFrom(tracks, frame, i)[j], frame)
    decreases |tracks| - i
  {
    if i < |tracks| {
      var t := tracks[i];
      var ls := LayersFrom(tracks, frame, i).value;
      var ix := ShowingFrom(tracks, frame, i);
      assert LayersFrom(tracks, frame, i + 1).Ok?;
      LayersFromShowing(tracks, frame, i + 1);
      var rest := LayersFrom(tracks, frame, i + 1).value;
      var rx := ShowingFrom(tracks, frame, i + 1);
      if TrackShows(t, frame) {
        assert TrackDefined(t);
        assert ls == [LayerOf(tracks, i, frame)] + rest;
        assert ix == [i] + rx;
        forall j | 0 <= j < |ix|
          ensures ix[j] < |tracks| && TrackDefined(tracks[ix[j]]) && ls[j] == LayerOf(tracks, ix[j], frame)
        {
          if j > 0 {
            assert ix[j] == rx[j - 1] && ls[j] == rest[j - 1];
          }
        }
      } else {
        assert ls == rest && ix == rx;
      }
    }
  }

  /** Every drawn layer sees a frame inside its window and is drawn with an
      opacity in [0, 1]. */
  lemma LayersWithinWindows(tracks: seq<Track>, frame: int)
    requires forall k :: 0 <= k < |tracks| ==> TrackDefined(tracks[k])
    ensures Layers(tracks, frame).Ok?
    ensures forall j :: 0 <= j < |Layers(tracks, frame).value| ==>
              Layers(tracks, frame).value[j].track < |tracks|
              && 0 <= Layers(tracks, frame).value[j].localFrame
                    < tracks[Layers(tracks, frame).value[j].track].durationInFrames
              && 0.0 <= Layers(tracks, frame).value[j].opacity <= 1.0
  {
    LayersFromOk(tracks, frame, 0);
    LayersFromShowing(tracks, frame, 0);
    ShowingFromExact(tracks, frame, 0);
    var ls := Layers(tracks, frame).value;
    var ix := ShowingFrom(tracks, frame, 0);
    forall j | 0 <= j < |ls|
      ensures ls[j].track < |tracks| && 0 <= ls[j].localFrame < tracks[ls[j].track].durationInFrames
      ensures 0.0 <= ls[j].opacity <= 1.0
    {
      var t := tracks[ix[j]];
      OpacityInUnitRange(SequenceLocalFrame(t.from, frame) - t.fadeStart, t.fadeDuration, t.fadeIn, t.fadeOut);
    }
  }

  /** Outside every window nothing is drawn. */
  lemma NothingOutsideWindows(tracks: seq<Track>, frame: int)
    requires forall k :: 0 <= k < |tracks| ==> !TrackShows(tracks[k], frame)
    ensures Layers(tracks, frame) == Ok([])
  {
    NothingFrom(tracks, frame, 0);
  }

  lemma {:induction false} NothingFrom(tracks: seq<Track>, frame: int, i: nat)
    requires forall k :: i <= k < |tracks| ==> !TrackShows(tracks[k], frame)
    ensures LayersFrom(tracks, frame, i) == Ok([])
    decreases |tracks| - i
  {
    if i < |tracks| {
      NothingFrom(tracks, frame, i + 1);
    }
  }

  /** Every window of the promo passes its crossfade the window itself:
      start frame 0 and the window's length, so the envelope is well formed. */
  lemma PromoTracksWellFormed()
    ensures forall k :: 0 <= k < |Tracks| ==>
              Tracks[k].fadeStart == 0 && Tracks[k].fadeDuration == Tracks[k].durationInFrames
              && TrackDefined(Tracks[k])
  {
  }

  /** The windows as frame ranges: the hook on [0, 105), then [85, 190),
      [175, 295), [280, 400), [385, 475) and the call to action on [460, 550). */
  lemma PromoWindows()
    ensures Tracks[0].from == 0 && Tracks[0].from + Tracks[0].durationInFrames == 105
    ensures forall k :: 1 <= k < |Tracks| - 1 ==>
              Tracks[k].from == Scenes[k].start - 5
              && Tracks[k].from + Tracks[k].durationInFrames == Scenes[k].start + Scenes[k].duration + 10
    ensures Tracks[5].from == 460 && Tracks[5].from + Tracks[5].durationInFrames == TimelineEnd
  {
  }

  /** Neighbouring windows overlap by 20 frames (hook into app reveal) or
      15 frames (all later transitions); windows two apart never meet. */
  lemma PromoOverlaps()
    ensures forall k :: 0 <= k < |Tracks| - 1 ==>
              Tracks[k].from < Tracks[k + 1].from
              && Tracks[k].from + Tracks[k].durationInFrames - Tracks[k + 1].from == (if k == 0 then 20 else 15)
    ensures forall k :: 0 <= k < |Tracks| - 2 ==>
              Tracks[k].from + Tracks[k].durationInFrames <= Tracks[k + 2].from
  {
  }

  /** Which tracks show each frame, read off the window ranges. */
  function PromoSchedule(frame: int): seq<nat>
  {
    if frame < 0 then []
    else if frame < 85 then [0]
    else if frame < 105 then [0, 1]
    else if frame < 175 then [1]
    else if frame < 190 then [1, 2]
    else if frame < 280 then [2]
    else if frame < 295 then [2, 3]
    else if frame < 385 then [3]
    else if frame < 400 then [3, 4]
    else if frame < 460 then [4]
    else if frame < 475 then [4, 5]
    else if frame < 550 then [5]
    else []
  }

  lemma PromoShowing(frame: int)
    ensures ShowingFrom(Tracks, frame, 0) == PromoSchedule(frame)
  {
    assert ShowingFrom(Tracks, frame, 6) == [];
    assert ShowingFrom(Tracks, frame, 5) == (if 460 <= frame < 550 then [5] else []);
    assert ShowingFrom(Tracks, frame, 4) == (if 385 <= frame < 475 then [4] else []) + ShowingFrom(Tracks, frame, 5);
    assert ShowingFrom(Tracks, frame, 3) == (if 280 <= frame < 400 then [3] else []) + ShowingFrom(Tracks, frame, 4);
    assert ShowingFrom(Tracks, frame, 2) == (if 175 <= frame < 295 then [2] else []) + ShowingFrom(Tracks, frame, 3);
    assert ShowingFrom(Tracks, frame, 1) == (if 85 <= frame < 190 then [1] else []) + ShowingFrom(Tracks, frame, 2);
    assert ShowingFrom(Tracks, frame, 0) == (if 0 <= frame < 105 then [0] else []) + ShowingFrom(Tracks, frame, 1);
  }

  /** The promo never fails to render; every frame of [0, 550) draws one or
      two scenes, and no frame outside it draws any. */
  lemma PromoCoverage(frame: int)
    ensures Layers(Tracks, frame).Ok?
    ensures 0 <= frame < TimelineEnd ==> 1 <= |Layers(Tracks, frame).value| <= 2
    ensures (frame < 0 || frame >= TimelineEnd) ==> Layers(Tracks, frame) == Ok([])
  {
    PromoTracksWellFormed();
    LayersFromOk(Tracks, frame, 0);
    LayersFromShowing(Tracks, frame, 0);
    PromoShowing(frame);
  }

  /** During each transition both scenes are drawn, the outgoing one below
      the incoming one; the outgoing scene stays visible throughout, and the
      incoming one is visible from the second frame of the overlap on (on
      the first it sits at its local frame 0, where its fade-in gives 0). */
  lemma PromoCrossfade(k: nat, frame: int)
    requires k < |Tracks| - 1
    requires Tracks[k + 1].from <= frame < Tracks[k].from + Tracks[k].durationInFrames
    ensures Layers(Tracks, frame).Ok? && |Layers(Tracks, frame).value| == 2
    ensures Layers(Tracks, frame).value[0].track == k && Layers(Tracks, frame).value[1].track == k + 1
    ensures Layers(Tracks, frame).value[0].opacity > 0.0
    ensures Layers(Tracks, frame).value[1].opacity > 0.0 <==> frame > Tracks[k + 1].from
  {
    PromoPair(k, frame);
    var a, b := Tracks[k], Tracks[k + 1];
    PromoTracksWellFormed();
    PromoOverlaps();
    assert b.from + b.durationInFrames > a.from + a.durationInFrames;
    OverlapOpacities(a, b, frame);
  }

  /** Two windows that overlap at `frame`, each handing its crossfade the
      window itself: the earlier scene is visible, the later one from the
      second frame of its window on. */
  lemma OverlapOpacities(a: Track, b: Track, frame: int)
    requires TrackDefined(a) && TrackDefined(b)
    requires a.fadeStart == 0 && a.fadeDuration == a.durationInFrames
    requires b.fadeStart == 0 && b.fadeDuration == b.durationInFrames
    requires a.from < b.from && TrackShows(a, frame) && TrackShows(b, frame)
    ensures TrackOpacity(a, frame).Ok? && TrackOpacity(a, frame).value > 0.0
    ensures TrackOpacity(b, frame).Ok? && (TrackOpacity(b, frame).value > 0.0 <==> frame > b.from)
  {
    OpacityPositiveInside(frame - a.from, a.fadeDuration, a.fadeIn, a.fadeOut);
    if frame > b.from {
      OpacityPositiveInside(frame - b.from, b.fadeDuration, b.fadeIn, b.fadeOut);
    } else {
      OpacityIsEnvelope(0, b.fadeDuration, b.fadeIn, b.fadeOut);
    }
  }

  /** During transition `k` exactly the two neighbouring windows are drawn. */
  lemma PromoPair(k: nat, frame: int)
    requires k < |Tracks| - 1
    requires Tracks[k + 1].from <= frame < Tracks[k].from + Tracks[k].durationInFrames
    ensures TrackDefined(Tracks[k]) && TrackDefined(Tracks[k + 1])
    ensures Layers(Tracks, frame) == Ok([LayerOf(Tracks, k, frame), LayerOf(Tracks, k + 1, frame)])
  {
    PromoTracksWellFormed();
    PromoShowing(frame);
    assert ShowingFrom(Tracks, frame, 0) == [k, k + 1];
    LayersFromOk(Tracks, frame, 0);
    LayersFromShowing(Tracks, frame, 0);
    var ls := Layers(Tracks, frame).value;
    assert |ls| == 2 && ls[0] == LayerOf(Tracks, k, frame) && ls[1] == LayerOf(Tracks, k + 1, frame);
    assert ls == [ls[0], ls[1]];
  }

  // ---------------------------------------------------------------------
  // The download counter of the social-proof scene

  /** `Math.min(500000, Math.floor(interpolate(frame, [30, 60], [0, 500000])))`
      with both ends clamped. */
  function DownloadCount(frame: int): (n: int)
    ensures 0 <= n <= 500000
    ensures frame <= 30 ==> n == 0
    ensures frame >= 60 ==> n == 500000
    ensures 30 <= frame <= 60 ==> n == (frame - 30) * 50000 / 3
  {
    DownloadRamp(frame);
    Min(500000, Interpolate(frame as real, [30.0, 60.0], [0.0, 500000.0]).value.Floor)
  }

  function Min(a: int, b: int): int { if a <= b then a else b }

  /** The clamped ramp from 0 at frame 30 to 500000 at frame 60. */
  lemma DownloadRamp(frame: int)
    ensures var r := Interpolate(frame as real, [30.0, 60.0], [0.0, 500000.0]);
            && r.Ok?
            && (frame <= 30 ==> r.value == 0.0)
            && (frame >= 60 ==> r.value == 500000.0)
            && (30 < frame < 60 ==> r.value.Floor == (frame - 30) * 50000 / 3 && 0 <= r.value.Floor < 500000)
  {
    var inp, out := [30.0, 60.0], [0.0, 500000.0];
    var x := frame as real;
    assert ValidRanges(inp, out);
    if frame <= 30 {
      InterpolateClampLeft(x, inp, out);
    } else if frame >= 60 {
      InterpolateClampRight(x, inp, out);
    } else {
      InterpolateOnSegment(x, inp, out, 0);
      DownloadLine(frame);
    }
  }

  lemma DownloadLine(frame: int)
    requires 30 < frame < 60
    ensures var v := 0.0 + (frame as real - 30.0) / (60.0 - 30.0) * (500000.0 - 0.0);
            v.Floor == (frame - 30) * 50000 / 3 && 0 <= v.Floor < 500000
  {
    var a := (frame - 30) * 50000;
    var v := 0.0 + (frame as real - 30.0) / (60.0 - 30.0) * (500000.0 - 0.0);
    assert v == a as real / 3.0;
    var q := a / 3;
    assert q as real <= a as real / 3.0 < q as real + 1.0;
  }

  /** The counter never goes down as the scene plays. */
  lemma DownloadCountMonotone(a: int, b: int)
    requires a <= b
    ensures DownloadCount(a) <= DownloadCount(b)
  {
    if 30 <= a && b <= 60 {
      assert (a - 30) * 50000 <= (b - 30) * 50000;
    }
  }
}

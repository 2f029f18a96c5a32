/** The clock engine of the sequencer: it counts the frames of the audio
    buffers it silences, turns them into ticks, derives the musical position
    (bar, quarter note, tuplet) from the tick counter, and on every tick
    triggers the tracks armed at the current step of the grid. */
module AudioHandling {
  import opened GuiHandling

  /** The musical position shown to the user (struct m_rhythm). */
  datatype Rhythm = Rhythm(bar: int, quarterNote: int, tuplet: int)

  /** The sample counter after one buffer, and whether a tick fires. */
  datatype Accrual = Accrual(counter: int, fires: bool)

  /** The step within the bar that tick `tick` falls on. */
  function LocalTick(tick: int, subdivisionInOneBar: int): (localTick: int)
    requires tick >= 0 && subdivisionInOneBar > 0
    ensures 0 <= localTick < subdivisionInOneBar
  {
    tick % subdivisionInOneBar
  }

  /** The position of tick `tick` in a bar of `beatsToTheBar` quarter notes,
      each divided into `subdivision` steps: every component is within its
      range. The tick counter is never negative here, so the truncating
      division of the C++ code and the Euclidean division used below agree. */
  function Position(tick: int, beatsToTheBar: int, subdivision: int): (r: Rhythm)
    requires tick >= 0 && beatsToTheBar > 0 && subdivision > 0
    ensures 0 <= r.bar && 0 <= r.quarterNote < beatsToTheBar && 0 <= r.tuplet < subdivision
  {
    var subdivisionInOneBar := beatsToTheBar * subdivision;
    var localTick := LocalTick(tick, subdivisionInOneBar);
    QuotientBelow(localTick, subdivision, beatsToTheBar);
    Rhythm(tick / subdivisionInOneBar, localTick / subdivision, localTick % subdivision)
  }

  /** The position reconstructs the tick counter: whole bars, then whole
      quarter notes, then tuplets. */
  lemma PositionReconstructs(tick: int, beatsToTheBar: int, subdivision: int)
    requires tick >= 0 && beatsToTheBar > 0 && subdivision > 0
    ensures var r := Position(tick, beatsToTheBar, subdivision);
      tick == r.bar * (beatsToTheBar * subdivision) + r.quarterNote * subdivision + r.tuplet
    ensures LocalTick(tick, beatsToTheBar * subdivision) ==
      Position(tick, beatsToTheBar, subdivision).quarterNote * subdivision + Position(tick, beatsToTheBar, subdivision).tuplet
  {
    var s := beatsToTheBar * subdivision;
    var localTick := LocalTick(tick, s);
    assert tick == (tick / s) * s + localTick;
    assert localTick == (localTick / subdivision) * subdivision + localTick % subdivision;
  }

  /** n < b * d implies n / d < b. */
  lemma QuotientBelow(n: int, d: int, b: int)
    requires 0 <= n < b * d && d > 0
    ensures n / d < b
  {
  }

  /** Multiplying by a non-negative factor keeps the order. */
  lemma MultiplyMonotone(a: int, b: int, d: int)
    requires a <= b && d >= 0
    ensures a * d <= b * d
  {
    assert b * d - a * d == (b - a) * d;
  }

  /** Division by a positive divisor has exactly one quotient and remainder. */
  lemma DivModUnique(n: int, d: int, q: int, m: int)
    requires d > 0 && 0 <= m < d && n == q * d + m
    ensures n / d == q && n % d == m
  {
    var q', m' := n / d, n % d;
    assert n == q' * d + m' && 0 <= m' < d;
    if q > q' {
      MultiplyMonotone(q' + 1, q, d);
    } else if q < q' {
      MultiplyMonotone(q + 1, q', d);
    }
  }

  /** The position is the only decomposition of the tick counter into bar,
      quarter note and tuplet within range: the converse of Position's contract. */
  lemma PositionUnique(tick: int, beatsToTheBar: int, subdivision: int, r: Rhythm)
    requires beatsToTheBar > 0 && subdivision > 0
    requires 0 <= r.bar && 0 <= r.quarterNote < beatsToTheBar && 0 <= r.tuplet < subdivision
    requires tick == r.bar * (beatsToTheBar * subdivision) + r.quarterNote * subdivision + r.tuplet
    ensures tick >= 0
    ensures Position(tick, beatsToTheBar, subdivision) == r
    ensures LocalTick(tick, beatsToTheBar * subdivision) == r.quarterNote * subdivision + r.tuplet
  {
    var s := beatsToTheBar * subdivision;
    var localTick := r.quarterNote * subdivision + r.tuplet;
    MultiplyMonotone(r.quarterNote, beatsToTheBar - 1, subdivision);
    assert (beatsToTheBar - 1) * subdivision == s - subdivision;
    assert 0 <= localTick < s;
    MultiplyMonotone(0, r.bar, s);
    DivModUnique(tick, s, r.bar, localTick);
    assert LocalTick(tick, s) == localTick;
    DivModUnique(localTick, subdivision, r.quarterNote, r.tuplet);
  }

  /** The first tick of every bar lands on step 0 of the grid, on the first
      tuplet of the first quarter note. */
  lemma FirstTickOfBar(bar: int, beatsToTheBar: int, subdivision: int)
    requires bar >= 0 && beatsToTheBar > 0 && subdivision > 0
    ensures bar * (beatsToTheBar * subdivision) >= 0
    ensures LocalTick(bar * (beatsToTheBar * subdivision), beatsToTheBar * subdivision) == 0
    ensures Position(bar * (beatsToTheBar * subdivision), beatsToTheBar, subdivision) == Rhythm(bar, 0, 0)
  {
    PositionUnique(bar * (beatsToTheBar * subdivision), beatsToTheBar, subdivision, Rhythm(bar, 0, 0));
  }

  /** Samples per tick for a tempo in beats per minute, with `subdivision`
      ticks per beat: one minute of samples is spread over bpm * subdivision ticks. */
  function SamplesPerTick(sampleRate: int, bpm: real, subdivision: int): (samples: real)
    requires sampleRate > 0 && bpm > 0.0 && subdivision > 0
    ensures samples > 0.0
    ensures samples * bpm * subdivision as real == sampleRate as real * 60.0
  {
    (sampleRate as real * 60.0) / bpm / subdivision as real
  }

  /** The default configuration (44100 Hz, 120 bpm, 4 tuplets) gives 5512.5
      samples per tick; 48000 Hz at 60 bpm without subdivision gives 48000. */
  lemma SamplesPerTickExamples()
    ensures SamplesPerTick(44100, 120.0, 4) == 5512.5
    ensures SamplesPerTick(48000, 60.0, 1) == 48000.0
  {
  }

  /** One buffer of `frames` stereo frames: the frames are added to the counter
      and, when the counter has reached one tick's worth of samples, one tick
      fires and that amount is taken off again. The counter is an integer, so
      the fractional part of the difference is dropped. At most one tick fires
      per buffer, however long the buffer. */
  function Accrue(counter: int, frames: int, samplesPerTick: real): (a: Accrual)
    ensures a.fires <==> (counter + frames) as real >= samplesPerTick
    ensures !a.fires ==> a.counter == counter + frames
    ensures a.fires ==> 0 <= a.counter && a.counter as real <= (counter + frames) as real - samplesPerTick < a.counter as real + 1.0
  {
    var total := counter + frames;
    if total as real >= samplesPerTick then Accrual((total as real - samplesPerTick).Floor, true)
    else Accrual(total, false)
  }

  /** Firing a tick takes the tick length rounded UP off the counter, so ticks
      are that far apart on average; each tick itself falls on a buffer
      boundary (see BufferBoundaryTicks). */
  lemma FiringConsumesCeiling(counter: int, frames: int, samplesPerTick: real)
    requires Accrue(counter, frames, samplesPerTick).fires
    ensures Accrue(counter, frames, samplesPerTick).counter == counter + frames - (-(-samplesPerTick).Floor)
  {
    var total := counter + frames;
    var c := (-samplesPerTick).Floor;
    assert c as real <= -samplesPerTick < c as real + 1.0;
    assert (total + c) as real <= total as real - samplesPerTick < (total + c) as real + 1.0;
  }

  /** While buffers are no longer than one tick, a counter below the current
      tick length stays below it. A tempo or meter change that shortens the
      tick can leave the counter above it (see TempoChangeBurst). */
  lemma NoBacklog(counter: int, frames: int, samplesPerTick: real)
    requires counter as real < samplesPerTick && 0 <= frames && frames as real <= samplesPerTick
    ensures Accrue(counter, frames, samplesPerTick).counter as real < samplesPerTick
  {
  }

  /** With a tick of 100 samples, one buffer of 200 frames fires one tick and
      leaves a full tick pending, while two buffers of 100 frames fire two:
      the ticks fired depend on how the stream is cut into buffers. */
  lemma BufferSplitMatters()
    ensures Accrue(0, 200, 100.0) == Accrual(100, true)
    ensures Accrue(0, 100, 100.0) == Accrual(0, true)
    ensures Accrue(Accrue(0, 100, 100.0).counter, 100, 100.0) == Accrual(0, true)
  {
  }

  /** At 44100 Hz, 200 bpm and 8 tuplets a tick is 1653.75 samples, but with
      512-frame buffers and a counter starting at 0 the first tick fires only
      on the fourth buffer, 2048 samples in: ticks fall on buffer boundaries. */
  lemma BufferBoundaryTicks()
    ensures SamplesPerTick(44100, 200.0, 8) == 1653.75
    ensures Accrue(0, 512, 1653.75) == Accrual(512, false)
    ensures Accrue(512, 512, 1653.75) == Accrual(1024, false)
    ensures Accrue(1024, 512, 1653.75) == Accrual(1536, false)
    ensures Accrue(1536, 512, 1653.75) == Accrual(394, true)
  {
  }

  /** At 44100 Hz and 2 tuplets, a counter of 40000 is below the 44100-sample
      tick of 30 bpm. After the tempo moves to 200 bpm the tick is 6615
      samples, and 512-frame buffers then fire a tick on every buffer until
      the counter has caught up. */
  lemma TempoChangeBurst()
    ensures SamplesPerTick(44100, 30.0, 2) == 44100.0
    ensures SamplesPerTick(44100, 200.0, 2) == 6615.0
    ensures Accrue(40000, 512, 6615.0) == Accrual(33897, true)
    ensures Accrue(33897, 512, 6615.0) == Accrual(27794, true)
  {
  }

  /** The tracks triggered, in ascending order, when the first n tracks are
      asked whether step localTick is armed. */
  function Dispatched(gui: SequencerGui, localTick: int, n: int): (played: seq<int>)
    reads gui.tracks
    requires gui.Valid() && 0 <= n <= TrackCount
    ensures forall k :: 0 <= k < |played| ==> 0 <= played[k] < n && gui.IsTickHighlighted(localTick, played[k])
    ensures forall k, l :: 0 <= k < l < |played| ==> played[k] < played[l]
    ensures forall i :: 0 <= i < n && gui.IsTickHighlighted(localTick, i) ==> i in played
    decreases n
  {
    if n == 0 then []
    else Dispatched(gui, localTick, n - 1) + (if gui.IsTickHighlighted(localTick, n - 1) then [n - 1] else [])
  }

  /** The clock engine (class metronome). The instrument is replaced by the
      ghost log `played` of the track indices it was asked to play. */
  class Metronome {
    const gui: SequencerGui
    const sampleRate: int
    var isSetup: bool
    var onOff: bool
    var bufferCounter: int
    var samplesPerTick: real
    var tempo: real
    var tick: int
    var subdivision: int
    var subdivisionInOneBar: int
    var beatsToTheBar: int
    var myRhythm: Rhythm
    ghost var played: seq<int>

    /** Once set up, the meter is positive, the bar length matches it, the
        tick counter is at most one step before a bar, the tick length matches
        the tempo, and the grid has exactly one bar of steps. */
    ghost predicate Valid()
      reads this, gui, gui.tracks
    {
      gui.Valid() && sampleRate > 0 &&
      (isSetup ==>
        beatsToTheBar > 0 && subdivision > 0 &&
        subdivisionInOneBar == beatsToTheBar * subdivision &&
        tick >= subdivisionInOneBar - 1 &&
        tempo > 0.0 && samplesPerTick == SamplesPerTick(sampleRate, tempo, subdivision) &&
        gui.Steps() == subdivisionInOneBar && gui.tuplets == subdivision)
    }

    /** One tick was processed: the counter grew by one, the position was
        recomputed, every track armed at the new step was played in ascending
        order, and the grid highlights that step, which is inside the grid. */
    twostate predicate Ticked()
      reads this, gui, gui.tracks
    {
      gui.Valid() && isSetup && beatsToTheBar > 0 && subdivision > 0 && subdivisionInOneBar > 0 &&
      tick == old(tick) + 1 && tick >= 0 &&
      myRhythm == Position(tick, beatsToTheBar, subdivision) &&
      0 <= gui.highlightTick < gui.Steps() &&
      gui.highlightTick == LocalTick(tick, subdivisionInOneBar) &&
      played == old(played) + Dispatched(gui, gui.highlightTick, TrackCount) &&
      gui.guiChanged
    }

    /** No tick was processed: the position, the log and the highlight are as before. */
    twostate predicate Idle()
      reads this, gui
    {
      tick == old(tick) && myRhythm == old(myRhythm) && played == old(played) &&
      gui.highlightTick == old(gui.highlightTick) && gui.guiChanged == old(gui.guiChanged)
    }

    /** A new metronome is neither set up nor running; the sample counter, tick
        counter, tempo and meter are left undefined. */
    constructor (seqGui: SequencerGui, rate: int)
      requires seqGui.Valid() && rate > 0
      ensures Valid() && gui == seqGui && sampleRate == rate
      ensures !isSetup && !onOff && played == []
    {
      gui := seqGui;
      sampleRate := rate;
      isSetup := false;
      onOff := false;
      played := [];
    }

    /** Configure tempo and meter, place the tick counter one step before
        the first bar, and rebuild the grid with the default pattern. */
    method Setup(initialTempo: int, initialBeatAmount: int, initialTupletAmount: int)
      requires Valid()
      requires initialTempo > 0 && initialBeatAmount > 0 && initialTupletAmount > 0
      modifies this`subdivision, this`beatsToTheBar, this`subdivisionInOneBar, this`tick, this`myRhythm,
        this`isSetup, this`tempo, this`samplesPerTick, gui`tuplets, gui`guiChanged, gui.tracks
      ensures Valid() && isSetup
      ensures subdivision == initialTupletAmount && beatsToTheBar == initialBeatAmount
      ensures subdivisionInOneBar == initialBeatAmount * initialTupletAmount
      ensures tick == subdivisionInOneBar - 1
      ensures myRhythm == Rhythm(0, 0, 0)
      ensures tempo == initialTempo as real
      ensures samplesPerTick == SamplesPerTick(sampleRate, initialTempo as real, initialTupletAmount)
      ensures gui.tracks[..] == DefaultPattern(subdivisionInOneBar) && gui.guiChanged
    {
      subdivision := initialTupletAmount;
      beatsToTheBar := initialBeatAmount;
      subdivisionInOneBar := subdivision * beatsToTheBar;
      tick := subdivisionInOneBar - 1;
      myRhythm := Rhythm(0, 0, 0);
      isSetup := true;
      SetTempo(initialTempo as real);
      UpdateSeqGui();
      DefaultPatternShape(subdivisionInOneBar);
    }

    /** Rebuild the grid for the current meter. */
    method UpdateSeqGui()
      requires gui.Valid()
      modifies gui`tuplets, gui`guiChanged, gui.tracks
      ensures gui.Valid() && gui.tuplets == subdivision
      ensures beatsToTheBar * subdivision <= 0 ==> gui.tracks[..] == old(gui.tracks[..]) && gui.guiChanged == old(gui.guiChanged)
      ensures beatsToTheBar * subdivision > 0 ==> gui.tracks[..] == DefaultPattern(beatsToTheBar * subdivision) && gui.guiChanged
    {
      gui.Setup(beatsToTheBar, subdivision);
    }

    /** Process one interleaved stereo buffer: silence it, and while running
        count its frames and fire at most one tick. While stopped the sample
        counter is cleared. */
    method AudioOut(buffer: array<real>)
      requires Valid() && buffer.Length % 2 == 0
      modifies this`bufferCounter, this`tick, this`myRhythm, this`played, gui`highlightTick, gui`guiChanged, buffer
      ensures Valid()
      ensures forall k :: 0 <= k < buffer.Length ==> buffer[k] == 0.0
      ensures !onOff ==> bufferCounter == 0 && Idle()
      ensures onOff ==>
        var a := Accrue(old(bufferCounter), buffer.Length / 2, samplesPerTick);
        bufferCounter == a.counter &&
        (if a.fires && isSetup then Ticked() else Idle())
    {
      if !onOff {
        forall k | 0 <= k < buffer.Length {
          buffer[k] := 0.0;
        }
        bufferCounter := 0;
        return;
      } else {
        var i := 0;
        while i < buffer.Length
          invariant 0 <= i <= buffer.Length && i % 2 == 0
          invariant forall k :: 0 <= k < i ==> buffer[k] == 0.0
          invariant Idle() && bufferCounter == old(bufferCounter)
        {
          buffer[i] := 0.0;
          buffer[i + 1] := 0.0;
          i := i + 2;
        }
        bufferCounter := bufferCounter + buffer.Length / 2;
        if bufferCounter as real >= samplesPerTick {
          bufferCounter := (bufferCounter as real - samplesPerTick).Floor;
          Update();
        }
      }
    }

    /** Start or stop. Stopping puts the tick counter one step before a bar,
        so the next tick after restarting lands on step 0. */
    method ToggleOnOff(on: bool)
      requires Valid()
      modifies this`onOff, this`tick
      ensures Valid() && onOff == on
      ensures !on ==> tick == subdivisionInOneBar - 1
      ensures on ==> tick == old(tick)
    {
      onOff := on;
      if !onOff {
        tick := subdivisionInOneBar - 1;
      }
    }

    /** Set the tempo; before setup this does nothing. */
    method SetTempo(bpm: real)
      requires sampleRate > 0 && (isSetup ==> bpm > 0.0 && subdivision > 0)
      modifies this`tempo, this`samplesPerTick
      ensures isSetup ==> tempo == bpm && samplesPerTick == SamplesPerTick(sampleRate, bpm, subdivision)
      ensures !isSetup ==> tempo == old(tempo) && samplesPerTick == old(samplesPerTick)
      ensures old(Valid()) ==> Valid()
    {
      if isSetup {
        tempo := bpm;
        samplesPerTick := (sampleRate as real * 60.0) / tempo / subdivision as real;
      }
    }

    /** Change the meter: the tick length follows the new subdivision, the
        grid is rebuilt with the default pattern, and the tick counter is put
        one step before a bar. */
    method UpdateRhythm(quarters: int, tuplets: int)
      requires Valid() && quarters > 0 && tuplets > 0
      modifies this`beatsToTheBar, this`subdivision, this`subdivisionInOneBar, this`tick,
        this`tempo, this`samplesPerTick, gui`tuplets, gui`guiChanged, gui.tracks
      ensures Valid()
      ensures beatsToTheBar == quarters && subdivision == tuplets
      ensures subdivisionInOneBar == quarters * tuplets && tick == subdivisionInOneBar - 1
      ensures tempo == old(tempo)
      ensures isSetup ==> samplesPerTick == SamplesPerTick(sampleRate, tempo, tuplets)
      ensures !isSetup ==> samplesPerTick == old(samplesPerTick)
      ensures gui.tracks[..] == DefaultPattern(quarters * tuplets) && gui.guiChanged
    {
      beatsToTheBar := quarters;
      subdivision := tuplets;
      SetTempo(tempo);
      UpdateSeqGui();
      subdivisionInOneBar := beatsToTheBar * subdivision;
      tick := subdivisionInOneBar - 1;
      DefaultPatternShape(subdivisionInOneBar);
    }

    /** Ask the grid for every track, in ascending order, whether step
        `localTick` is armed, and play each track that is. */
    method Dispatch(localTick: int)
      requires gui.Valid()
      modifies this`played
      ensures played == old(played) + Dispatched(gui, localTick, TrackCount)
    {
      for i := 0 to TrackCount
        invariant played == old(played) + Dispatched(gui, localTick, i)
      {
        if gui.IsTickHighlighted(localTick, i) {
          played := played + [i];  // the instrument plays track i
        }
      }
    }

    /** One tick; before setup this does nothing. */
    method Update()
      requires Valid()
      modifies this`tick, this`myRhythm, this`played, gui`highlightTick, gui`guiChanged
      ensures Valid()
      ensures isSetup ==> Ticked()
      ensures !isSetup ==> Idle()
    {
      if isSetup {
        tick := tick + 1;
        var localTick := LocalTick(tick, subdivisionInOneBar);
        myRhythm := Position(tick, beatsToTheBar, subdivision);
        Dispatch(localTick);
        gui.Update(localTick);
      }
    }
  }

  /** Stopping and restarting a running metronome: the next tick lands on
      step 0 of the grid, at the start of a bar. */
  method RestartFromFirstStep(m: Metronome)
    requires m.Valid() && m.isSetup
    modifies m, m.gui
    ensures m.Valid() && m.onOff
    ensures m.gui.highlightTick == 0
    ensures m.myRhythm.quarterNote == 0 && m.myRhythm.tuplet == 0 && m.myRhythm.bar >= 1
  {
    m.ToggleOnOff(false);
    m.ToggleOnOff(true);
    m.Update();
    FirstTickOfBar(1, m.beatsToTheBar, m.subdivision);
  }

  /** A metronome at 60 bpm in 4/4 without subdivision, at 48000 Hz: after
      setup, one stopped buffer clears the sample counter; after starting,
      one buffer of 48000 frames fires exactly one tick, which lands on the
      first step of bar 1 of the four-step grid. */
  method FirstTickAfterSetup() returns (position: Rhythm, step: int, steps: int)
    ensures position == Rhythm(1, 0, 0) && step == 0 && steps == 4
  {
    var gui := new SequencerGui();
    var m := new Metronome(gui, 48000);
    m.Setup(60, 4, 1);
    SamplesPerTickExamples();
    assert m.tick == 3 && m.samplesPerTick == 48000.0;
    var silence := new real[1024];
    m.AudioOut(silence);
    m.ToggleOnOff(true);
    assert m.bufferCounter == 0 && m.tick == 3 && m.isSetup;
    var buffer := new real[96000];
    assert Accrue(0, 96000 / 2, 48000.0) == Accrual(0, true);
    m.AudioOut(buffer);
    assert m.tick == 4;
    FirstTickOfBar(1, 4, 1);
    position, step, steps := m.myRhythm, gui.highlightTick, gui.Steps();
  }
}

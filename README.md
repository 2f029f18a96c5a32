# SimpleStepSequencer clock and step grid, in Dafny

This project models the core of SimpleStepSequencer, a three-track step sequencer built on openFrameworks. Two objects make up that core, and each is a Dafny class.

- **`AudioHandling.Metronome`** (metronome.cpp / metronome.h) is the clock engine. The audio callback hands it interleaved stereo buffers. It silences each buffer and adds the buffer's frame count to an integer sample counter. When the counter reaches `samplesPerTick`, it fires one tick (`update`). A tick advances `tick`, derives bar, quarter note and tuplet from it, asks the grid for each of the three tracks in ascending order whether the current step is armed, plays those tracks, and moves the grid's highlight to that step. `setup`, `setTempo`, `updateRhythm` and `toggleOnOff` reconfigure it.
- **`GuiHandling.SequencerGui`** (sequencerGui.cpp / sequencerGui.h) holds the state of the step grid, without its drawing. `m_beats[3]` is a fixed array of three vectors of `{rectangle, flag}` cells. `setup` rebuilds it with a fixed default pattern. `checkBox` flips the cells under a mouse click. `isTickHighlighted` is a bounds-checked query, and `setRectangleColor` is the colour rule for a step.

The metronome holds a reference to the grid, as `m_seqGuiPtr` does. `play(i)` on the music player becomes an append of `i` to the ghost log `played`. The tick-position arithmetic, the tick length, the sample-counter step, the click toggle and the dispatch order are also written as pure functions. The methods are proved against those functions, and lemmas prove properties of the functions:

- The position reconstructs the tick counter, and it is the only in-range decomposition that does (`PositionReconstructs`, `PositionUnique`).
- Each bar's first tick lands on step 0 (`FirstTickOfBar`).
- Each tick takes the tick length rounded up off the sample counter, so ticks are that far apart on average; each tick itself falls on a buffer boundary (`FiringConsumesCeiling`, `BufferBoundaryTicks`).
- A click flips at most one cell, and clicking twice restores the grid (`ClickFlipsAtMostOneCell`, `ToggleTwice`).

`Metronome.Valid()` holds a cross-object invariant. Once the engine is set up, every track of the grid has exactly `beats*tuplets` steps. So the step the engine asks about is always inside the grid.

Points where the code's behaviour is easy to misread:
- The tick check in `audioOut` is an `if`, not a loop. At most one tick fires per buffer, so the number of ticks depends on how the stream is cut into buffers (`BufferSplitMatters`). With the application's 512-frame buffers, a buffer is always shorter than one tick (at least 1653.75 samples). In that case the counter stays below the tick length as long as it starts below the current tick length (`NoBacklog`). A tempo or meter change that shortens the tick can leave it above; ticks then fire on consecutive buffers until it catches up (`TempoChangeBurst`).
- While stopped, `audioOut` sets the sample counter to 0 rather than leaving it untouched.
- `setup` puts `tick` one step before a bar. So the first tick after setup lands on bar 1, step 0, not on bar 0 (`FirstTickAfterSetup`).
- The grid's `setup` refuses only a non-positive product `quarters*tuplets`, not each factor separately. It stores the tuplet count before that check.
- A cell is toggled by a click point, not by a (track, position) pair.

## Model

| member | source | states |
|---|---|---|
| `GuiHandling.SequencerGui.constructor` | SimpleStepSequencer/src/GuiHandling/sequencerGui.h:58-64 | a new grid has three empty tracks, highlight index -1 and no pending change; the tuplet count stays undefined |
| `GuiHandling.SequencerGui.Setup` | SimpleStepSequencer/src/GuiHandling/sequencerGui.cpp:24-57 | the tuplet count is always stored; a step count `quarters*tuplets <= 0` leaves the tracks and the changed flag as they were; otherwise the old pattern is replaced by the default pattern of that many steps and the grid is marked changed |
| `GuiHandling.DefaultPatternShape` | SimpleStepSequencer/src/GuiHandling/sequencerGui.cpp:41-55 | the default pattern has three tracks of the requested length, track 0 all armed, tracks 1 and 2 all disarmed, every cell at its grid position |
| `GuiHandling.SequencerGui.Update` | SimpleStepSequencer/src/GuiHandling/sequencerGui.cpp:79-82 | the highlight moves to the given step and the grid is marked changed; its frame leaves every flag and the tuplet count untouched |
| `GuiHandling.SequencerGui.IsTickHighlighted` | SimpleStepSequencer/src/GuiHandling/sequencerGui.cpp:86-95 | a track index outside 0..2 or a step outside the track answers false; otherwise the answer is the stored flag; as a function it changes nothing |
| `GuiHandling.SequencerGui.CheckBox` | SimpleStepSequencer/src/GuiHandling/sequencerGui.cpp:109-122 | the new grid is the old grid with every cell containing the click flipped, and the grid is marked changed exactly when some cell contains the click |
| `GuiHandling.ToggleTwice` | SimpleStepSequencer/src/GuiHandling/sequencerGui.cpp:109-122 | clicking the same point twice restores the pattern |
| `GuiHandling.ClickFlipsAtMostOneCell` | SimpleStepSequencer/src/GuiHandling/sequencerGui.cpp:109-122 | a click keeps every rectangle and track length, flips exactly the flags of cells containing it, and on a laid-out grid changes at most one cell |
| `GuiHandling.ToggleKeepsLayout` | SimpleStepSequencer/src/GuiHandling/sequencerGui.cpp:109-122 | a click leaves every cell at its grid position |
| `GuiHandling.ClickOnCellFlipsIt` | SimpleStepSequencer/src/GuiHandling/sequencerGui.cpp:109-122 | clicking the centre of a laid-out cell flips that cell and no other, so every cell can be edited |
| `GuiHandling.CellsDisjoint` | SimpleStepSequencer/src/GuiHandling/sequencerGui.cpp:44-49 | cells at x = 10+18j, y = 20+25i of size 15x15 never overlap: a point inside two cells is inside the same cell |
| `GuiHandling.SequencerGui.RectangleColor` | SimpleStepSequencer/src/GuiHandling/sequencerGui.cpp:173-190 | the colour is grey (green equals blue), 155 on a step divisible by the tuplet count and 120 elsewhere, with red raised by exactly 100 on the highlighted step and on no other |
| `GuiHandling.NothingHighlightedInitially` | SimpleStepSequencer/src/GuiHandling/sequencerGui.h:63 | with the default highlight index -1 no step index (all are >= 0) is tinted red |
| `AudioHandling.LocalTick` | SimpleStepSequencer/src/AudioHandling/metronome.cpp:119 | the step within the bar is between 0 and the number of steps per bar, so it always indexes a track of the grid |
| `AudioHandling.Position` | SimpleStepSequencer/src/AudioHandling/metronome.cpp:119-124 | the bar is non-negative, the quarter note is below the beats per bar and the tuplet below the subdivision |
| `AudioHandling.PositionReconstructs` | SimpleStepSequencer/src/AudioHandling/metronome.cpp:119-124 | `tick == bar*S + quarterNote*subdivision + tuplet` with `S = beats*subdivision`, and the step within the bar is `quarterNote*subdivision + tuplet` |
| `AudioHandling.PositionUnique` | SimpleStepSequencer/src/AudioHandling/metronome.cpp:119-124 | conversely, any in-range bar, quarter note and tuplet that reconstruct the tick counter are its position |
| `AudioHandling.FirstTickOfBar` | SimpleStepSequencer/src/AudioHandling/metronome.cpp:117-124 | tick `bar*S` is step 0 of the grid and position (bar, 0, 0), so a counter reset to `S-1` next lands on step 0 |
| `AudioHandling.SamplesPerTick` | SimpleStepSequencer/src/AudioHandling/metronome.cpp:98 | the tick length is positive and `samplesPerTick * bpm * subdivision` equals one minute of samples |
| `AudioHandling.SamplesPerTickExamples` | SimpleStepSequencer/src/AudioHandling/metronome.cpp:95-100 | 44100 Hz at 120 bpm with 4 tuplets gives 5512.5 samples per tick; 48000 Hz at 60 bpm with 1 gives 48000 |
| `AudioHandling.Accrue` | SimpleStepSequencer/src/AudioHandling/metronome.cpp:73-79 | a tick fires exactly when counter plus frames reaches the tick length; without a tick the counter is the sum; with one the counter is the sum minus the tick length with the fraction dropped, and never negative |
| `AudioHandling.FiringConsumesCeiling` | SimpleStepSequencer/src/AudioHandling/metronome.cpp:76-77 | a fired tick takes the tick length rounded up off the counter |
| `AudioHandling.BufferBoundaryTicks` | SimpleStepSequencer/src/AudioHandling/metronome.cpp:73-79 | at 44100 Hz, 200 bpm and 8 tuplets the tick is 1653.75 samples, yet with 512-frame buffers from a zero counter the first tick fires only on the fourth buffer, 2048 samples in |
| `AudioHandling.TempoChangeBurst` | SimpleStepSequencer/src/AudioHandling/metronome.cpp:95-100 | a counter of 40000, below the 44100-sample tick of 30 bpm, fires on two consecutive 512-frame buffers once the tempo is 200 bpm (tick 6615) |
| `AudioHandling.NoBacklog` | SimpleStepSequencer/src/AudioHandling/metronome.cpp:76-79 | with buffers no longer than one tick and the tick length unchanged, a counter below the tick length stays below it |
| `AudioHandling.BufferSplitMatters` | SimpleStepSequencer/src/AudioHandling/metronome.cpp:76-79 | one 200-frame buffer fires one 100-sample tick and leaves one pending; two 100-frame buffers fire two |
| `AudioHandling.Dispatched` | SimpleStepSequencer/src/AudioHandling/metronome.cpp:127-131 | the tracks played are strictly ascending, each is armed at the step, and every armed track below the bound is among them |
| `AudioHandling.Metronome.constructor` | SimpleStepSequencer/src/AudioHandling/metronome.h:71-72 | a new metronome is neither set up nor running and has played nothing; counter, tick, tempo and meter stay undefined |
| `AudioHandling.Metronome.Setup` | SimpleStepSequencer/src/AudioHandling/metronome.cpp:28-44 | stores the meter, sets `S = beats*tuplets` and `tick = S-1`, zeroes the position, marks the engine set up, sets the tempo and its tick length, and rebuilds the grid with the default pattern of S steps |
| `AudioHandling.Metronome.UpdateSeqGui` | SimpleStepSequencer/src/AudioHandling/metronome.cpp:48-50 | the grid is rebuilt for the current beats and tuplets |
| `AudioHandling.Metronome.AudioOut` | SimpleStepSequencer/src/AudioHandling/metronome.cpp:61-81 | every sample becomes 0.0; stopped, the counter becomes 0 and nothing else changes; running, the counter follows `Accrue` on half the buffer length and exactly one tick is processed when it fires, none otherwise |
| `AudioHandling.Metronome.ToggleOnOff` | SimpleStepSequencer/src/AudioHandling/metronome.cpp:85-91 | the running flag takes the given value; stopping puts `tick` at `S-1`, starting leaves it unchanged |
| `AudioHandling.Metronome.SetTempo` | SimpleStepSequencer/src/AudioHandling/metronome.cpp:95-100 | before setup nothing changes; after setup the tempo becomes the given bpm and the tick length becomes one minute of samples divided by bpm and subdivision; a valid engine stays valid |
| `AudioHandling.Metronome.UpdateRhythm` | SimpleStepSequencer/src/AudioHandling/metronome.cpp:104-111 | stores the meter, recomputes the tick length for the kept tempo when set up, rebuilds the grid with `beats*tuplets` steps equal to the new S, and sets `tick = S-1` |
| `AudioHandling.Metronome.Dispatch` | SimpleStepSequencer/src/AudioHandling/metronome.cpp:127-131 | the log grows by exactly the tracks armed at the step, in ascending order |
| `AudioHandling.Metronome.Update` | SimpleStepSequencer/src/AudioHandling/metronome.cpp:115-135 | before setup nothing changes; after setup `tick` grows by one, the position is recomputed from it, the armed tracks are played in order, and the grid highlights the new step, which lies inside the grid |
| `AudioHandling.RestartFromFirstStep` | SimpleStepSequencer/src/AudioHandling/metronome.cpp:85-91 | stopping, starting and one tick lands on step 0 at the first quarter note and tuplet of a bar |
| `AudioHandling.FirstTickAfterSetup` | SimpleStepSequencer/src/AudioHandling/metronome.cpp:28-44 | at 60 bpm, 4 beats, 1 tuplet and 48000 Hz, one 48000-frame buffer after starting fires one tick at bar 1, step 0 of a four-step grid |

## Left out

- Drawing: `sequencerGui::draw`, `refreshFramebuffer`, `drawDiagonalCross`, `setupFramebuffer`, `isFramebufferReady` and `metronome::draw` only issue openFrameworks drawing calls. The colour rule they use is modelled as `RectangleColor`.
- Instruments: the music player and the MIDI and sample instruments are I/O. `play(i)` is the ghost log `played`. The instrument factory calls and the description string of the metronome's constructor are not modelled.
- GUI wiring (customGui, guiManager) and the application lifecycle (ofApp, main, factory, audioManager) are plumbing. The sample rate comes in as a constructor parameter.
- Preconditions: the engine requires positive tempo, beats and tuplets. The GUI sliders keep them within 30–200, 1–8 and 2–8. A zero subdivision would divide by zero in `update`, and negative meters are not modelled.
- Concurrency: the audio callback and the GUI setters run on different threads without synchronisation. The model runs every call to completion, one at a time.
- Floating point: `m_samplesPerTick`, `m_tempo` and the buffer samples are exact reals. Float rounding when the counter is converted to and from `float` is not modelled.
- Integer width: `m_tick` and `quarters*tuplets` are unbounded integers. A 32-bit overflow of the tick counter after 2^31 ticks is not modelled.
- Buffer shape: `AudioOut` requires an even buffer length, as for an interleaved stereo buffer. With an odd length the source's silencing loop would write one sample past the end.
- `ofRectangle::inside` is not part of this model. A click is taken to be inside a cell when it lies strictly between the cell's edges, and mouse positions are whole pixels.
- Logging (`ofLog`, `ofLogError`) is left out.
- `AudioHandling.Position`: its contract gives only the ranges. The reconstruction identity and its converse are stated by `PositionReconstructs` and `PositionUnique`.
- `GuiHandling.SequencerGui.Valid`: it does not include the cell layout. That the cells sit at their grid positions is a separate property: `DefaultPatternShape` establishes it and `ToggleKeepsLayout` preserves it.
- `AudioHandling.Metronome.Dispatch`: the dispatch loop of `update` is a method of its own, called from `Update`.

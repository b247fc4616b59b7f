/**
 * The per-instance video player store (src/components/VideoPlayer/store.tsx).
 *
 * The store holds whether the video is playing, the last reported playback
 * position, whether the video has been started before, and the player handle.
 * The player handle is modelled as a flag saying whether one is attached, and
 * the seeks the store issues on it are recorded in a ghost log.
 */
module PlayerStore {

  /** Every video starts with a 6-second intro that the first play skips. */
  const SecondsToSkip: real := 6.0

  /** A snapshot of the store's state, including the log of issued seeks. */
  datatype PlayerState = PlayerState(
    playing: bool,
    currentTime: real,
    firstTimePlaying: bool,
    hasPlayer: bool,
    seeks: seq<real>)

  /** The state `createPlayerStore` starts from. */
  function Initial(): PlayerState {
    PlayerState(false, 0.0, true, false, [])
  }

  /** `togglePlayPause`: skip the intro on the first toggle, then flip `playing`. */
  function Toggle(s: PlayerState): PlayerState {
    var seeks := if s.firstTimePlaying && s.hasPlayer then s.seeks + [SecondsToSkip] else s.seeks;
    s.(playing := !s.playing, firstTimePlaying := false, seeks := seeks)
  }

  /** `setPlayer`: attach the player handle. */
  function AttachPlayer(s: PlayerState): PlayerState {
    s.(hasPlayer := true)
  }

  /** `setCurrentTime`: record the reported position as it is. */
  function SetTime(s: PlayerState, seconds: real): PlayerState {
    s.(currentTime := seconds)
  }

  /** The commands a caller can issue on the store. */
  datatype Action = TogglePlayPause | SetPlayer | SetCurrentTime(seconds: real)

  function Step(s: PlayerState, a: Action): PlayerState {
    match a
    case TogglePlayPause => Toggle(s)
    case SetPlayer => AttachPlayer(s)
    case SetCurrentTime(t) => SetTime(s, t)
  }

  /** The state after issuing `actions` in order. */
  function Run(s: PlayerState, actions: seq<Action>): PlayerState
    decreases |actions|
  {
    if actions == [] then s else Run(Step(s, actions[0]), actions[1..])
  }

  /** No toggle occurs among the first `i` actions. */
  ghost predicate NoToggleBefore(actions: seq<Action>, i: int) {
    forall j :: 0 <= j < i && j < |actions| ==> actions[j] != TogglePlayPause
  }

  /** A player is attached after the first `i` actions. */
  ghost predicate AttachedBefore(attached: bool, actions: seq<Action>, i: int) {
    attached || exists j :: 0 <= j < i && j < |actions| && actions[j] == SetPlayer
  }

  /**
   * The first toggle in `actions` happens at a moment a player is attached:
   * either `attached` holds already, or a `SetPlayer` comes before it.
   */
  ghost predicate FirstToggleWithPlayer(attached: bool, actions: seq<Action>) {
    exists i :: 0 <= i < |actions| && actions[i] == TogglePlayPause
      && NoToggleBefore(actions, i) && AttachedBefore(attached, actions, i)
  }

  /** Two toggles restore `playing`, and the intro flag stays cleared. */
  lemma ToggleTwice(s: PlayerState)
    ensures Toggle(Toggle(s)).playing == s.playing
    ensures !Toggle(Toggle(s)).firstTimePlaying
    ensures Toggle(Toggle(s)).seeks == Toggle(s).seeks
  {
  }

  /** One toggle issues a seek to the intro offset exactly when it is the first and a player is attached. */
  lemma ToggleSeeks(s: PlayerState)
    ensures Toggle(s).playing == !s.playing && !Toggle(s).firstTimePlaying
    ensures |Toggle(s).seeks| == |s.seeks| + (if s.firstTimePlaying && s.hasPlayer then 1 else 0)
    ensures Toggle(s).seeks[..|s.seeks|] == s.seeks
    ensures s.firstTimePlaying && s.hasPlayer ==> Toggle(s).seeks[|s.seeks|] == SecondsToSkip
    ensures Toggle(s).currentTime == s.currentTime && Toggle(s).hasPlayer == s.hasPlayer
  {
  }

  /** Once the store has been started, no command issues any further seek. */
  lemma {:induction false} NoSeekAfterFirstToggle(s: PlayerState, actions: seq<Action>)
    requires !s.firstTimePlaying
    ensures Run(s, actions).seeks == s.seeks
    ensures !Run(s, actions).firstTimePlaying
    decreases |actions|
  {
    if actions != [] {
      NoSeekAfterFirstToggle(Step(s, actions[0]), actions[1..]);
    }
  }

  /**
   * From a state that has not issued a seek, a run issues the intro seek
   * exactly when its first toggle finds a player attached, and never more.
   */
  lemma {:induction false} IntroSeekOnce(s: PlayerState, actions: seq<Action>)
    requires s.firstTimePlaying
    ensures Run(s, actions).seeks
      == s.seeks + (if FirstToggleWithPlayer(s.hasPlayer, actions) then [SecondsToSkip] else [])
    decreases |actions|
  {
    if actions == [] {
      assert !FirstToggleWithPlayer(s.hasPlayer, actions);
    } else {
      var a, rest := actions[0], actions[1..];
      var s' := Step(s, a);
      if a == TogglePlayPause {
        NoSeekAfterFirstToggle(s', rest);
        assert FirstToggleWithPlayer(s.hasPlayer, actions) == s.hasPlayer by {
          if s.hasPlayer {
            assert actions[0] == TogglePlayPause && NoToggleBefore(actions, 0);
          }
        }
      } else {
        IntroSeekOnce(s', rest);
        ShiftPastNonToggle(s.hasPlayer, actions);
      }
    }
  }

  /** Skipping a leading non-toggle action only matters through whether it attaches a player. */
  lemma ShiftPastNonToggle(attached: bool, actions: seq<Action>)
    requires actions != [] && actions[0] != TogglePlayPause
    ensures FirstToggleWithPlayer(attached, actions)
      == FirstToggleWithPlayer(attached || actions[0] == SetPlayer, actions[1..])
  {
    var rest, attached' := actions[1..], attached || actions[0] == SetPlayer;
    forall i | 1 <= i <= |actions|
      ensures NoToggleBefore(actions, i) == NoToggleBefore(rest, i - 1)
      ensures AttachedBefore(attached, actions, i) == AttachedBefore(attached', rest, i - 1)
    {
      if AttachedBefore(attached, actions, i) && !attached' {
        var j :| 0 <= j < i && j < |actions| && actions[j] == SetPlayer;
        assert rest[j - 1] == SetPlayer;
      }
      if AttachedBefore(attached', rest, i - 1) && !attached {
        if actions[0] != SetPlayer {
          var j :| 0 <= j < i - 1 && j < |rest| && rest[j] == SetPlayer;
          assert actions[j + 1] == SetPlayer;
        }
      }
    }
    if FirstToggleWithPlayer(attached, actions) {
      var i :| 0 <= i < |actions| && actions[i] == TogglePlayPause
        && NoToggleBefore(actions, i) && AttachedBefore(attached, actions, i);
      assert rest[i - 1] == TogglePlayPause;
    }
    if FirstToggleWithPlayer(attached', rest) {
      var i :| 0 <= i < |rest| && rest[i] == TogglePlayPause
        && NoToggleBefore(rest, i) && AttachedBefore(attached', rest, i);
      assert actions[i + 1] == TogglePlayPause;
    }
  }

  /**
   * Over the whole life of a store, at most one seek is issued, it goes to
   * the intro offset, and it is issued exactly when the first toggle finds a
   * player attached; a first toggle without a player uses up the skip.
   */
  lemma IntroSkippedAtMostOnce(actions: seq<Action>)
    ensures |Run(Initial(), actions).seeks| <= 1
    ensures forall i :: 0 <= i < |Run(Initial(), actions).seeks| ==> Run(Initial(), actions).seeks[i] == SecondsToSkip
    ensures |Run(Initial(), actions).seeks| == 1 <==> FirstToggleWithPlayer(false, actions)
  {
    IntroSeekOnce(Initial(), actions);
  }

  /** `setCurrentTime` stores exactly the reported value, unclamped, and touches nothing else. */
  lemma SetTimeOnlyTime(s: PlayerState, seconds: real)
    ensures SetTime(s, seconds).currentTime == seconds
    ensures SetTime(s, seconds) == s.(currentTime := seconds)
  {
  }

  /** A live store. */
  class Store {
    var playing: bool
    var currentTime: real
    var firstTimePlaying: bool
    var hasPlayer: bool
    /** The positions, in seconds, of the seeks issued on the attached player. */
    ghost var seeks: seq<real>

    ghost function State(): PlayerState
      reads this
    {
      PlayerState(playing, currentTime, firstTimePlaying, hasPlayer, seeks)
    }

    /** `createPlayerStore`. */
    constructor ()
      ensures !playing && firstTimePlaying && currentTime == 0.0
      ensures !hasPlayer && seeks == []
      ensures State() == Initial()
    {
      playing := false;
      firstTimePlaying := true;
      currentTime := 0.0;
      hasPlayer := false;
      seeks := [];
    }

    /** Flip `playing`; on the very first call, seek the attached player past the intro. */
    method TogglePlayPause()
      modifies this
      ensures playing == !old(playing) && !firstTimePlaying
      ensures seeks == old(seeks) + (if old(firstTimePlaying) && old(hasPlayer) then [SecondsToSkip] else [])
      ensures currentTime == old(currentTime) && hasPlayer == old(hasPlayer)
      ensures State() == Toggle(old(State()))
    {
      if firstTimePlaying && hasPlayer {
        seeks := seeks + [SecondsToSkip];
      }
      playing, firstTimePlaying := !playing, false;
    }

    /** Attach the player handle; nothing else changes. */
    method SetPlayer()
      modifies this
      ensures hasPlayer
      ensures playing == old(playing) && currentTime == old(currentTime)
      ensures firstTimePlaying == old(firstTimePlaying) && seeks == old(seeks)
      ensures State() == AttachPlayer(old(State()))
    {
      hasPlayer := true;
    }

    /** Record the reported playback position as it is; nothing else changes. */
    method SetCurrentTime(seconds: real)
      modifies this
      ensures currentTime == seconds
      ensures playing == old(playing) && firstTimePlaying == old(firstTimePlaying)
      ensures hasPlayer == old(hasPlayer) && seeks == old(seeks)
      ensures State() == SetTime(old(State()), seconds)
    {
      currentTime := seconds;
    }
  }
}

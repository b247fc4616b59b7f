/**
 * The video player's shortcut table (src/components/VideoPlayer/use-keyboard-controls.ts).
 *
 * The store revision modelled here does not define the fullscreen and seek
 * commands the table refers to, so the commands are kept abstract.
 */
module KeyboardControls {
  import opened Wrappers
  import opened KeyboardShortcuts

  /** What a binding asks the player store to do. */
  datatype Command =
    | EnterFullscreen
    | TogglePlayPause
    | ExitFullscreen
    | SeekForward(seconds: real)
    | SeekBackward(seconds: real)

  /** A combination naming only a key: every modifier is left out. */
  function Plain(key: string): KeyCombo {
    KeyCombo(key, None, None, None, None)
  }

  /** The five bindings `useKeyboardControls` passes to the shortcut hook, in order. */
  function PlayerBindings(): seq<(KeyCombo, Command)> {
    [ (Plain("f"), EnterFullscreen),
      (Plain(" "), TogglePlayPause),
      (Plain("esc"), ExitFullscreen),
      (Plain("ArrowRight"), SeekForward(5.0)),
      (Plain("ArrowLeft"), SeekBackward(5.0)) ]
  }

  /** The key names the table binds. */
  function BoundKeys(): set<string> {
    {"f", " ", "esc", "ArrowRight", "ArrowLeft"}
  }

  /** The command a key-down event dispatches to, if any. */
  function PlayerCommand(e: KeyEvent): Option<Command> {
    Lookup(BuildMap(PlayerBindings()), e)
  }

  /** An event with no modifier pressed. */
  function Unmodified(key: string): KeyEvent {
    KeyEvent(key, false, false, false, false)
  }

  /** No two entries of the table share a combination, so none shadows another. */
  lemma BindingsDistinct()
    ensures forall i, j :: 0 <= i < j < |PlayerBindings()| ==>
      MapKey(PlayerBindings()[i].0) != MapKey(PlayerBindings()[j].0)
  {
    var b := PlayerBindings();
    forall i, j | 0 <= i < j < |b|
      ensures MapKey(b[i].0) != MapKey(b[j].0)
    {
      MapKeyInjective(b[i].0, b[j].0);
    }
  }

  /** An event dispatches to a command exactly when it presses a bound key with no modifier. */
  lemma DispatchesIffUnmodifiedBoundKey(e: KeyEvent)
    ensures PlayerCommand(e).Some? <==>
      e.key in BoundKeys() && !e.altKey && !e.ctrlKey && !e.metaKey && !e.shiftKey
  {
    DispatchExact(PlayerBindings(), e);
    var b := PlayerBindings();
    if e.key in BoundKeys() && !e.altKey && !e.ctrlKey && !e.metaKey && !e.shiftKey {
      var i := if e.key == "f" then 0 else if e.key == " " then 1 else if e.key == "esc" then 2
        else if e.key == "ArrowRight" then 3 else 4;
      assert Matches(b[i].0, e);
    }
  }

  /** Each bound key, pressed alone, dispatches its own command. */
  lemma UnmodifiedKeysDispatch()
    ensures PlayerCommand(Unmodified("f")) == Some(EnterFullscreen)
    ensures PlayerCommand(Unmodified(" ")) == Some(TogglePlayPause)
    ensures PlayerCommand(Unmodified("esc")) == Some(ExitFullscreen)
    ensures PlayerCommand(Unmodified("ArrowRight")) == Some(SeekForward(5.0))
    ensures PlayerCommand(Unmodified("ArrowLeft")) == Some(SeekBackward(5.0))
  {
    var b := PlayerBindings();
    BindingsDistinct();
    forall i | 0 <= i < |b|
      ensures Lookup(BuildMap(b), Unmodified(b[i].0.key)) == Some(b[i].1)
    {
      var e := Unmodified(b[i].0.key);
      DispatchExact(b, e);
      assert Matches(b[i].0, e);
      var m :| 0 <= m < |b| && Matches(b[m].0, e) && Lookup(BuildMap(b), e) == Some(b[m].1)
        && forall j :: m < j < |b| ==> !Matches(b[j].0, e);
      MapKeyInjective(b[i].0, b[m].0);
    }
    assert Lookup(BuildMap(b), Unmodified(b[0].0.key)) == Some(b[0].1);
    assert Lookup(BuildMap(b), Unmodified(b[1].0.key)) == Some(b[1].1);
    assert Lookup(BuildMap(b), Unmodified(b[2].0.key)) == Some(b[2].1);
    assert Lookup(BuildMap(b), Unmodified(b[3].0.key)) == Some(b[3].1);
    assert Lookup(BuildMap(b), Unmodified(b[4].0.key)) == Some(b[4].1);
  }

  /** Only the literal key name `"esc"` exits fullscreen: a key reported as `"Escape"` dispatches nothing. */
  lemma EscapeDispatchesNothing(e: KeyEvent)
    requires e.key == "Escape"
    ensures PlayerCommand(e) == None
  {
    DispatchesIffUnmodifiedBoundKey(e);
  }

  /** Any key pressed together with a modifier dispatches nothing. */
  lemma ModifiedDispatchesNothing(e: KeyEvent)
    requires e.altKey || e.ctrlKey || e.metaKey || e.shiftKey
    ensures PlayerCommand(e) == None
  {
    DispatchesIffUnmodifiedBoundKey(e);
  }

  /**
   * `useKeyboardControls`: install the table on the player's element, or on
   * `document.body` while that element is not known yet, preventing defaults.
   */
  method UseKeyboardControls(playerDomElement: Option<nat>) returns (listener: Listener<Command>)
    ensures fresh(listener)
    ensures listener.bindingsMap == BuildMap(PlayerBindings())
    ensures listener.preventDefault
    ensures listener.scope == if playerDomElement.Some? then Element(playerDomElement.value) else DocumentBody
    ensures listener.handled == []
  {
    listener := new Listener(PlayerBindings(), playerDomElement, None);
  }
}

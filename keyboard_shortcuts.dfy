/**
 * Keyboard shortcut matching (src/hooks/use-keyboard-shortcuts.ts).
 *
 * A key combination is turned into a string key: the key name followed by
 * the truthiness of the alt, ctrl, meta and shift modifiers, joined with
 * commas. Bindings are put into a map under that key (a later binding for
 * the same combination replaces an earlier one), and a key-down event runs
 * the handler stored under the event's own key, if any.
 */
module KeyboardShortcuts {
  import opened Wrappers

  /** A combination as the caller writes it; a modifier left out is `None`. */
  datatype KeyCombo = KeyCombo(
    key: string,
    altKey: Option<bool>,
    ctrlKey: Option<bool>,
    metaKey: Option<bool>,
    shiftKey: Option<bool>)

  /** The fields of a key-down event that matching reads; all four modifiers are present. */
  datatype KeyEvent = KeyEvent(key: string, altKey: bool, ctrlKey: bool, metaKey: bool, shiftKey: bool)

  /** A combination with every modifier resolved to a boolean. */
  datatype Chord = Chord(key: string, alt: bool, ctrl: bool, meta: bool, shift: bool)

  /** JavaScript's `!!`: an absent modifier counts as false. */
  function Truthy(flag: Option<bool>): bool {
    flag == Some(true)
  }

  /** How `Array.prototype.join` writes a boolean. */
  function BoolText(b: bool): string {
    if b then "true" else "false"
  }

  /** The combination an event presents. */
  function EventCombo(e: KeyEvent): KeyCombo {
    KeyCombo(e.key, Some(e.altKey), Some(e.ctrlKey), Some(e.metaKey), Some(e.shiftKey))
  }

  /** The combination as matching sees it. */
  function Normalize(c: KeyCombo): Chord {
    Chord(c.key, Truthy(c.altKey), Truthy(c.ctrlKey), Truthy(c.metaKey), Truthy(c.shiftKey))
  }

  /** `createKeybindingMapKey`: `[key, !!alt, !!ctrl, !!meta, !!shift].join()`. */
  function MapKey(c: KeyCombo): string {
    c.key + "," + BoolText(Truthy(c.altKey)) + "," + BoolText(Truthy(c.ctrlKey))
      + "," + BoolText(Truthy(c.metaKey)) + "," + BoolText(Truthy(c.shiftKey))
  }

  /** Splits a trailing `",true"` or `",false"` off `s`. */
  function DecodeFlag(s: string): Option<(string, bool)> {
    if |s| >= 5 && s[|s| - 5..] == ",true" then Some((s[..|s| - 5], true))
    else if |s| >= 6 && s[|s| - 6..] == ",false" then Some((s[..|s| - 6], false))
    else None
  }

  /** Reads a map key back, right to left, so that commas in the key name do no harm. */
  function DecodeMapKey(s: string): Option<Chord> {
    match DecodeFlag(s)
    case None => None
    case Some((s3, shift)) =>
      match DecodeFlag(s3)
      case None => None
      case Some((s2, meta)) =>
        match DecodeFlag(s2)
        case None => None
        case Some((s1, ctrl)) =>
          match DecodeFlag(s1)
          case None => None
          case Some((key, alt)) => Some(Chord(key, alt, ctrl, meta, shift))
  }

  lemma DecodeFlagAppended(prefix: string, b: bool)
    ensures DecodeFlag(prefix + "," + BoolText(b)) == Some((prefix, b))
  {
    if b {
      var s := prefix + ",true";
      assert prefix + "," + BoolText(b) == s;
      assert |s| - 5 == |prefix|;
      assert s[|prefix|..] == ",true" && s[..|prefix|] == prefix;
    } else {
      var s := prefix + ",false";
      assert prefix + "," + BoolText(b) == s;
      assert |s| - 6 == |prefix| && s[|s| - 5] == 'f';
      assert s[|prefix|..] == ",false" && s[..|prefix|] == prefix;
    }
  }

  /** Decoding a map key gives back the combination it was made from. */
  lemma DecodeOfMapKey(c: KeyCombo)
    ensures DecodeMapKey(MapKey(c)) == Some(Normalize(c))
  {
    var p1 := c.key + "," + BoolText(Truthy(c.altKey));
    var p2 := p1 + "," + BoolText(Truthy(c.ctrlKey));
    var p3 := p2 + "," + BoolText(Truthy(c.metaKey));
    assert MapKey(c) == p3 + "," + BoolText(Truthy(c.shiftKey));
    DecodeFlagAppended(p3, Truthy(c.shiftKey));
    DecodeFlagAppended(p2, Truthy(c.metaKey));
    DecodeFlagAppended(p1, Truthy(c.ctrlKey));
    DecodeFlagAppended(c.key, Truthy(c.altKey));
  }

  /**
   * Two combinations share a map key exactly when they agree on the key
   * name and on the truthiness of every modifier, even when the key name
   * itself contains commas.
   */
  lemma MapKeyInjective(a: KeyCombo, b: KeyCombo)
    ensures MapKey(a) == MapKey(b) <==> Normalize(a) == Normalize(b)
  {
    DecodeOfMapKey(a);
    DecodeOfMapKey(b);
  }

  /** An absent modifier gives the same map key as an explicit `false`. */
  lemma AbsentIsFalse(c: KeyCombo)
    ensures MapKey(c) == MapKey(KeyCombo(c.key, Some(Truthy(c.altKey)), Some(Truthy(c.ctrlKey)),
      Some(Truthy(c.metaKey)), Some(Truthy(c.shiftKey))))
    ensures MapKey(KeyCombo(c.key, None, None, None, None))
      == MapKey(KeyCombo(c.key, Some(false), Some(false), Some(false), Some(false)))
  {
  }

  /** Whether an event presses exactly the combination `c`. */
  predicate Matches(c: KeyCombo, e: KeyEvent) {
    c.key == e.key && Truthy(c.altKey) == e.altKey && Truthy(c.ctrlKey) == e.ctrlKey
      && Truthy(c.metaKey) == e.metaKey && Truthy(c.shiftKey) == e.shiftKey
  }

  /** `keyBindings.map(([c, h]) => [createKeybindingMapKey(c), h])`. */
  function Entries<H>(bindings: seq<(KeyCombo, H)>): seq<(string, H)> {
    seq(|bindings|, i requires 0 <= i < |bindings| => (MapKey(bindings[i].0), bindings[i].1))
  }

  /** `new Map(entries)`: a later entry for the same key overwrites an earlier one. */
  function MapOf<H>(entries: seq<(string, H)>): map<string, H>
    decreases |entries|
  {
    if entries == [] then map[]
    else
      var last := entries[|entries| - 1];
      MapOf(entries[..|entries| - 1])[last.0 := last.1]
  }

  /** The map the hook builds from its bindings. */
  function BuildMap<H>(bindings: seq<(KeyCombo, H)>): map<string, H> {
    MapOf(Entries(bindings))
  }

  /** `keyBindingsMap.get(createKeybindingMapKey(event))`. */
  function Lookup<H>(bindingsMap: map<string, H>, e: KeyEvent): Option<H> {
    var k := MapKey(EventCombo(e));
    if k in bindingsMap then Some(bindingsMap[k]) else None
  }

  /** `i` is the last entry whose key is `k`. */
  ghost predicate LastWithKey<H>(entries: seq<(string, H)>, k: string, i: int) {
    0 <= i < |entries| && entries[i].0 == k
      && forall j :: i < j < |entries| ==> entries[j].0 != k
  }

  /** The map holds a key exactly when some entry has it. */
  lemma {:induction false} MapOfKeys<H>(entries: seq<(string, H)>, k: string)
    ensures k in MapOf(entries) <==> exists i :: 0 <= i < |entries| && entries[i].0 == k
    decreases |entries|
  {
    if entries != [] {
      var n := |entries| - 1;
      var init := entries[..n];
      MapOfKeys(init, k);
      if k in MapOf(init) {
        var i :| 0 <= i < |init| && init[i].0 == k;
        assert entries[i] == init[i];
      }
      if exists i :: 0 <= i < |entries| && entries[i].0 == k {
        var i :| 0 <= i < |entries| && entries[i].0 == k;
        if i < n {
          assert init[i] == entries[i];
        }
      }
    }
  }

  /** The value stored under a key is that of the last entry with the key. */
  lemma {:induction false} MapOfLastWins<H>(entries: seq<(string, H)>, k: string)
    requires k in MapOf(entries)
    ensures exists i :: LastWithKey(entries, k, i) && MapOf(entries)[k] == entries[i].1
    decreases |entries|
  {
    var n := |entries| - 1;
    var init := entries[..n];
    if entries[n].0 == k {
      assert LastWithKey(entries, k, n);
    } else {
      assert k in MapOf(init);
      MapOfLastWins(init, k);
      var i :| LastWithKey(init, k, i) && MapOf(init)[k] == init[i].1;
      assert entries[i] == init[i];
      assert forall j :: i < j < n ==> entries[j] == init[j];
      assert LastWithKey(entries, k, i);
    }
  }

  /**
   * An event finds a handler exactly when some binding matches it exactly,
   * and the handler it finds is that of the last matching binding.
   */
  lemma DispatchExact<H>(bindings: seq<(KeyCombo, H)>, e: KeyEvent)
    ensures Lookup(BuildMap(bindings), e).Some?
      <==> exists i :: 0 <= i < |bindings| && Matches(bindings[i].0, e)
    ensures Lookup(BuildMap(bindings), e).Some? ==>
      exists i :: 0 <= i < |bindings| && Matches(bindings[i].0, e)
        && Lookup(BuildMap(bindings), e) == Some(bindings[i].1)
        && forall j :: i < j < |bindings| ==> !Matches(bindings[j].0, e)
  {
    var k := MapKey(EventCombo(e));
    var entries := Entries(bindings);
    MapOfKeys(entries, k);
    forall i | 0 <= i < |bindings|
      ensures Matches(bindings[i].0, e) <==> entries[i].0 == k
    {
      MapKeyInjective(bindings[i].0, EventCombo(e));
    }
    if k in BuildMap(bindings) {
      MapOfLastWins(entries, k);
    }
  }

  /** Where the listener is registered. */
  datatype Target = DocumentBody | Element(id: nat)

  /** A key-down event as the listener receives it; `preventDefault()` sets `defaultPrevented`. */
  class KeyDown {
    const event: KeyEvent
    var defaultPrevented: bool

    constructor (event: KeyEvent)
      ensures this.event == event && !defaultPrevented
    {
      this.event := event;
      defaultPrevented := false;
    }

    method PreventDefault()
      modifies this
      ensures defaultPrevented
    {
      defaultPrevented := true;
    }
  }

  /** The listener `useKeyboardShortcuts` installs. */
  class Listener<H> {
    const scope: Target
    const preventDefault: bool
    const bindingsMap: map<string, H>
    /** The handlers run so far, in order. */
    ghost var handled: seq<H>

    /**
     * `useKeyboardShortcuts(keyBindings, element, preventDefault)`: an omitted
     * element means `document.body`, an omitted flag means `true`.
     */
    constructor (keyBindings: seq<(KeyCombo, H)>, element: Option<nat>, preventDefault: Option<bool>)
      ensures scope == (if element.Some? then Element(element.value) else DocumentBody)
      ensures this.preventDefault == (preventDefault != Some(false))
      ensures bindingsMap == BuildMap(keyBindings)
      ensures handled == []
    {
      scope := if element.Some? then Element(element.value) else DocumentBody;
      this.preventDefault := preventDefault.GetOr(true);
      bindingsMap := BuildMap(keyBindings);
      handled := [];
    }

    /**
     * `handleKeyDown`: run the matching handler once and, if the listener
     * prevents defaults, prevent the event's default; an unmatched event is
     * left untouched.
     */
    method HandleKeyDown(e: KeyDown)
      modifies this, e
      ensures match Lookup(bindingsMap, e.event)
        case Some(h) =>
          && handled == old(handled) + [h]
          && e.defaultPrevented == (old(e.defaultPrevented) || preventDefault)
        case None =>
          && handled == old(handled)
          && e.defaultPrevented == old(e.defaultPrevented)
    {
      var mapKey := MapKey(EventCombo(e.event));
      if mapKey in bindingsMap {
        var keyBinding := bindingsMap[mapKey];
        handled := handled + [keyBinding];
        if preventDefault {
          e.PreventDefault();
        }
      }
    }
  }
}

/** The "G then X" keyboard shortcuts of the web app: pressing `g` records
    the time, and a route key pressed within the timeout afterwards
    navigates and forgets the press. The clock reading is a parameter of
    each key press. */
module Shortcuts {
  import opened Wrappers

  /** How long after `g` a route key still navigates, in milliseconds. */
  const NavigationTimeout := 1000

  datatype Route = Songs | Artists | Albums | Genres | Home | Playlists

  /** The keys that take part in the "G then X" scheme. */
  datatype Key = G | S | A | B | H | P

  /** The route each key leads to. */
  function RouteOf(key: Key): Route {
    match key
    case G => Genres
    case S => Songs
    case A => Artists
    case B => Albums
    case H => Home
    case P => Playlists
  }

  /** What runs when the key does not navigate: the `g` handler passes a
      callback recording the time of the press, the other keys none. */
  datatype IfNot = NoCallback | RecordPress(at: int)

  function IfNotOf(key: Key, now: int): IfNot {
    if key == G then RecordPress(now) else NoCallback
  }

  /** A press recorded at `when` is recent enough at `now`: no more than the
      timeout has passed (a clock that went back counts as recent). */
  predicate Recent(when: Option<int>, now: int) {
    when.Some? && now - when.value <= NavigationTimeout
  }

  /** The effect of pressing `key` at `now` on the recorded press `when`:
      the new recorded press and the route navigated to, if any. */
  function Press(when: Option<int>, now: int, key: Key): (r: (Option<int>, Option<Route>))
    ensures r.1.Some? <==> Recent(when, now)
    ensures r.1.Some? ==> r.1.value == RouteOf(key) && r.0 == None
    ensures r.1.None? && key == G ==> r.0 == Some(now)
    ensures r.1.None? && key != G ==> r.0 == when
  {
    if Recent(when, now) then (None, Some(RouteOf(key)))
    else
      match IfNotOf(key, now)
      case RecordPress(at) => (Some(at), None)
      case NoCallback => (when, None)
  }

  /** The `whenG` ref and the handlers that read and write it. */
  class Hotkeys {
    var whenG: Option<int>

    constructor ()
      ensures whenG == None
    {
      whenG := None;
    }

    /** `navigateIfLessThanTimeout`: without a recorded press, or with one
        older than the timeout, `ifNot` runs and nothing navigates;
        otherwise the press is forgotten and the route is navigated to. */
    method NavigateIfLessThanTimeout(now: int, route: Route, ifNot: IfNot) returns (navigated: Option<Route>)
      modifies this
      ensures old(whenG).None? ==> navigated == None
      ensures old(whenG).Some? && now - old(whenG).value > NavigationTimeout ==> navigated == None
      ensures navigated.Some? <==> Recent(old(whenG), now)
      ensures navigated.Some? ==> navigated == Some(route) && whenG == None
      ensures navigated.None? ==> whenG == (if ifNot.RecordPress? then Some(ifNot.at) else old(whenG))
    {
      if whenG.None? {
        if ifNot.RecordPress? {
          whenG := Some(ifNot.at);
        }
        return None;
      }
      var duration := now - whenG.value;
      if duration > NavigationTimeout {
        if ifNot.RecordPress? {
          whenG := Some(ifNot.at);
        }
        return None;
      }
      whenG := None;
      return Some(route);
    }

    /** The handler of one of the "G then X" keys, pressed at `now`. */
    method OnKey(now: int, key: Key) returns (navigated: Option<Route>)
      modifies this
      ensures (whenG, navigated) == Press(old(whenG), now, key)
    {
      navigated := NavigateIfLessThanTimeout(now, RouteOf(key), IfNotOf(key, now));
    }
  }

  /** A run of presses, each with its time, handled in turn: the recorded
      press at the end and what each press navigated to. */
  function Run(when: Option<int>, presses: seq<(int, Key)>): (r: (Option<int>, seq<Option<Route>>))
    ensures |r.1| == |presses|
    decreases |presses|
  {
    if presses == [] then (when, [])
    else
      var step := Press(when, presses[0].0, presses[0].1);
      var rest := Run(step.0, presses[1..]);
      (rest.0, [step.1] + rest.1)
  }

  /** Without a recorded `g` press no key navigates; `g` itself then
      records the time of the press. */
  lemma NoPressNoNavigation(now: int, key: Key)
    ensures Press(None, now, key).1 == None
    ensures Press(None, now, key).0 == (if key == G then Some(now) else None)
  {
  }

  /** A key pressed exactly the timeout after `g` still navigates; one
      millisecond later it no longer does, and the old press is kept (or,
      for `g`, replaced by the new one). */
  lemma TimeoutBoundary(t: int, key: Key)
    ensures Press(Some(t), t + NavigationTimeout, key).1 == Some(RouteOf(key))
    ensures Press(Some(t), t + NavigationTimeout + 1, key).1 == None
    ensures Press(Some(t), t + NavigationTimeout + 1, key).0 == (if key == G then Some(t + NavigationTimeout + 1) else Some(t))
  {
  }

  /** Navigating forgets the press: whatever key comes next, at whatever
      time, does not navigate. */
  lemma NavigationClears(when: Option<int>, now: int, key: Key, later: int, next: Key)
    requires Press(when, now, key).1.Some?
    ensures Press(Press(when, now, key).0, later, next).1 == None
  {
  }

  /** `g` twice goes to the genres page exactly when the second press comes
      within the timeout of the first. */
  lemma DoubleG(t1: int, t2: int)
    ensures Run(None, [(t1, G), (t2, G)]).1 == [None, if t2 - t1 <= NavigationTimeout then Some(Genres) else None]
  {
    assert [(t1, G), (t2, G)][1..] == [(t2, G)];
    assert [(t2, G)][1..] == [];
  }

  /** `g` followed by a route key within the timeout navigates to that
      key's route, and the press is forgotten. */
  lemma GThenKey(t1: int, t2: int, key: Key)
    requires t2 - t1 <= NavigationTimeout
    ensures Run(None, [(t1, G), (t2, key)]) == (None, [None, Some(RouteOf(key))])
  {
    var presses := [(t1, G), (t2, key)];
    assert presses[1..] == [(t2, key)];
    assert [(t2, key)][1..] == [];
    var one := [(t2, key)];
    var step := Press(Some(t1), t2, key);
    assert step == (None, Some(RouteOf(key)));
    var second := Run(Some(t1), one);
    assert second == (Run(step.0, one[1..]).0, [step.1] + Run(step.0, one[1..]).1);
    assert second == (None, [Some(RouteOf(key))] + []);
    assert Run(None, presses) == (second.0, [None] + second.1);
    assert [None] + [Some(RouteOf(key))] == [None, Some(RouteOf(key))];
    assert second.0 == None;
    assert Run(None, presses).1 == [None, Some(RouteOf(key))];
    assert Run(None, presses).0 == None;
  }

  /** From a fresh start, no two presses in a row navigate: every
      navigation is preceded by a press that did not navigate. */
  lemma NoTwoNavigationsInARow(presses: seq<(int, Key)>)
    ensures var r := Run(None, presses).1;
      forall k :: 0 <= k < |r| && r[k].Some? ==> k > 0 && r[k - 1].None?
  {
    NavigationsAlternate(None, presses);
  }

  lemma {:induction false} NavigationsAlternate(when: Option<int>, presses: seq<(int, Key)>)
    ensures var r := Run(when, presses).1;
      && (forall k :: 0 < k < |r| && r[k].Some? ==> r[k - 1].None?)
      && (when.None? && |r| > 0 ==> r[0].None?)
    decreases |presses|
  {
    if presses != [] {
      var step := Press(when, presses[0].0, presses[0].1);
      var rest := Run(step.0, presses[1..]).1;
      NavigationsAlternate(step.0, presses[1..]);
      var r := Run(when, presses).1;
      assert r == [step.1] + rest;
      forall k | 0 < k < |r| && r[k].Some? ensures r[k - 1].None? {
        assert r[k] == rest[k - 1];
        if k == 1 {
          assert step.1.Some? ==> step.0 == None;
        } else {
          assert r[k - 1] == rest[k - 2];
        }
      }
    }
  }
}

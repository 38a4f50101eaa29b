/** The mobile app's status bar provider: screens set a default style, and
    a screen may put up a temporary style that wins over the default until
    it is released. The native status bar is modelled by the last style it
    was told to show. */
module StatusBar {
  import opened Wrappers

  /** The styles the native status bar knows. */
  datatype Style = Dark | Light | Default

  /** The provider's two refs and the style the bar shows, if it was ever
      told one. */
  datatype Bar = Bar(style: Option<Style>, temporary: Option<Style>, shown: Option<Style>)

  /** What screens ask of the provider. */
  datatype Request = SetTemporary(temp: Style) | Release | SetDefault(def: Style)

  /** The provider before any request. */
  const Initial := Bar(None, None, None)

  /** The effect of one request; each keeps the provider consistent. */
  function Apply(b: Bar, req: Request): (r: Bar)
    ensures Consistent(b) ==> Consistent(r)
  {
    match req
    case SetTemporary(temp) => b.(temporary := Some(temp), shown := Some(temp))
    case Release => b.(temporary := None, shown := if b.style.Some? then b.style else b.shown)
    case SetDefault(def) => b.(style := Some(def), shown := if b.temporary.None? then Some(def) else b.shown)
  }

  /** The requests handled in turn. */
  function Run(b: Bar, reqs: seq<Request>): (r: Bar)
    decreases |reqs|
  {
    if reqs == [] then b else Run(Apply(b, reqs[0]), reqs[1..])
  }

  /** What the provider keeps true: a temporary style, while marked, is
      what the bar shows; without one, the default, once set, is. */
  predicate Consistent(b: Bar) {
    && (b.temporary.Some? ==> b.shown == b.temporary)
    && (b.temporary.None? && b.style.Some? ==> b.shown == b.style)
  }

  /** `setTemporary` marks the style and shows it at once; the default is
      kept. */
  lemma TemporaryShownAtOnce(b: Bar, temp: Style)
    ensures var r := Apply(b, SetTemporary(temp));
      r.temporary == Some(temp) && r.shown == Some(temp) && r.style == b.style
  {
  }

  /** `setDefault` records the default, and shows it exactly when no
      temporary style is marked. */
  lemma DefaultShownUnlessTemporary(b: Bar, def: Style)
    ensures var r := Apply(b, SetDefault(def));
      && r.style == Some(def) && r.temporary == b.temporary
      && (b.temporary.None? ==> r.shown == Some(def))
      && (b.temporary.Some? ==> r.shown == b.shown)
  {
  }

  /** Releasing clears the marker and shows the default again when there is
      one; without a default the bar keeps what it shows. */
  lemma ReleaseShowsDefault(b: Bar)
    ensures var r := Apply(b, Release);
      && r.temporary.None? && r.style == b.style
      && r.shown == (if b.style.Some? then b.style else b.shown)
  {
  }

  /** Every run of requests keeps the provider consistent: the bar shows
      the temporary style while one is marked, else the default once there
      is one. */
  lemma {:induction false} RunConsistent(b: Bar, reqs: seq<Request>)
    requires Consistent(b)
    ensures Consistent(Run(b, reqs))
    decreases |reqs|
  {
    if reqs != [] {
      RunConsistent(Apply(b, reqs[0]), reqs[1..]);
    }
  }

  /** `setDefault` while a temporary style is up records the default but
      leaves the bar alone; releasing the temporary style then shows it. */
  lemma DefaultWaitsForRelease(b: Bar, def: Style)
    requires b.temporary.Some?
    ensures Apply(b, SetDefault(def)).shown == b.shown
    ensures Apply(Apply(b, SetDefault(def)), Release).shown == Some(def)
  {
  }

  /** Nesting is not tracked: releasing the first of two temporary styles
      already drops the marker and shows the default (or leaves the second
      temporary style up when there is no default), and a default set
      afterwards shows at once although the second is not released. */
  lemma NestedReleaseClears(b: Bar, t1: Style, t2: Style, def: Style)
    ensures var after := Run(b, [SetTemporary(t1), SetTemporary(t2), Release]);
      && after.temporary.None?
      && after.shown == (if b.style.Some? then b.style else Some(t2))
      && Apply(after, SetDefault(def)).shown == Some(def)
  {
    var reqs := [SetTemporary(t1), SetTemporary(t2), Release];
    assert reqs[1..] == [SetTemporary(t2), Release];
    assert reqs[1..][1..] == [Release];
    assert reqs[1..][1..][1..] == [];
    var b1 := Apply(b, SetTemporary(t1));
    var b2 := Apply(b1, SetTemporary(t2));
    var b3 := Apply(b2, Release);
    assert Run(b, reqs) == Run(b1, reqs[1..]) == Run(b2, [Release]) == Run(b3, []);
  }

  /** The provider's refs, with the bar it drives. */
  class Provider {
    var style: Option<Style>
    var temporary: Option<Style>
    var shown: Option<Style>

    function State(): Bar
      reads this
    {
      Bar(style, temporary, shown)
    }

    constructor ()
      ensures State() == Initial
    {
      style := None;
      temporary := None;
      shown := None;
    }

    /** `setTemporary`: the style is marked and shown at once. The release
        function it returns is `ReleaseTemporary`. */
    method SetTemporaryStyle(temp: Style)
      modifies this
      ensures State() == Apply(old(State()), SetTemporary(temp))
    {
      temporary := Some(temp);
      shown := Some(temp);
    }

    /** The release function: the default is shown again if there is one,
        and the temporary marker is cleared. */
    method ReleaseTemporary()
      modifies this
      ensures State() == Apply(old(State()), Release)
    {
      if style.Some? {
        shown := style;
      }
      temporary := None;
    }

    /** `setDefault`: the default is recorded, and shown unless a temporary
        style is up. */
    method SetDefaultStyle(def: Style)
      modifies this
      ensures State() == Apply(old(State()), SetDefault(def))
    {
      style := Some(def);
      if temporary.None? {
        shown := Some(def);
      }
    }
  }
}

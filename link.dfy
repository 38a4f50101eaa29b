/** The app's `Link`: the `href` built from a route's path template, its
    params and its query params, and what a click on the link does. */
module Link {
  import opened Wrappers
  import opened Strings

  /** The placeholder a param fills in a path template. */
  function Placeholder(key: string): string {
    ":" + key
  }

  /** The params replaced in turn, each in the first place its
      placeholder occurs, by the value as `replace` expands it. A template
      without a ":" has no placeholder and comes back as it is. */
  function Substituted(path: string, params: seq<(string, string)>): (r: string)
    ensures ':' !in path ==> r == path
    decreases |params|
  {
    if params == [] then path
    else
      NoPlaceholder(path, params[0].0);
      Substituted(ReplaceFirst(path, Placeholder(params[0].0), params[0].1), params[1..])
  }

  lemma NoPlaceholder(path: string, key: string)
    ensures ':' !in path ==> !Contains(path, Placeholder(key))
  {
    var p := Placeholder(key);
    if ':' !in path {
      forall i: nat | i <= |path| ensures !OccursAt(path, p, i) {
        if i + |p| <= |path| {
          assert path[i..i + |p|][0] == path[i] && path[i] in path;
          assert p[0] == ':';
        }
      }
    }
  }

  /** The query string: `key=value` pairs joined by `&`. */
  function QueryString(queryParams: seq<(string, string)>): (r: string)
    ensures queryParams == [] ==> r == ""
  {
    Join(Pairs(queryParams), "&")
  }

  function Pairs(queryParams: seq<(string, string)>): (r: seq<string>)
    ensures |r| == |queryParams|
    ensures forall k :: 0 <= k < |r| ==> r[k] == queryParams[k].0 + "=" + queryParams[k].1
  {
    seq(|queryParams|, k requires 0 <= k < |queryParams| => queryParams[k].0 + "=" + queryParams[k].1)
  }

  /** The `href` of a link: for a template without placeholders, the
      template itself, followed by "?" and the query string when query
      params are given. */
  function HrefOf(path: string, params: Option<seq<(string, string)>>, queryParams: Option<seq<(string, string)>>): (r: string)
    ensures ':' !in path && queryParams.None? ==> r == path
    ensures ':' !in path && queryParams.Some? ==> r == path + "?" + QueryString(queryParams.value)
  {
    var base := Substituted(path, params.GetOr([]));
    if queryParams.Some? then base + "?" + QueryString(queryParams.value) else base
  }

  /** The `useMemo` computing `href`: a `forEach` over the params rewrites
      it, then the query string is appended when query params are given. */
  method Href(path: string, params: Option<seq<(string, string)>>, queryParams: Option<seq<(string, string)>>)
    returns (href: string)
    ensures href == HrefOf(path, params, queryParams)
  {
    href := path;
    var entries := params.GetOr([]);
    for k := 0 to |entries|
      invariant Substituted(path, entries) == Substituted(href, entries[k..])
    {
      assert entries[k..][1..] == entries[k + 1..];
      href := ReplaceFirst(href, Placeholder(entries[k].0), entries[k].1);
    }
    if queryParams.Some? {
      var search := QueryString(queryParams.value);
      href := href + "?" + search;
    }
  }

  /** Without query params no `?` is added: the `href` is the template with
      its params filled in. */
  lemma NoQueryNoMark(path: string, params: Option<seq<(string, string)>>)
    ensures HrefOf(path, params, None) == Substituted(path, params.GetOr([]))
    ensures '?' !in path && (forall k :: 0 <= k < |params.GetOr([])| ==> '?' !in params.GetOr([])[k].1)
            ==> '?' !in HrefOf(path, params, None)
  {
    NoNewChar(path, params.GetOr([]), '?');
  }

  /** A character that is in neither the template nor any value is not in
      the filled-in template either. */
  lemma {:induction false} NoNewChar(path: string, params: seq<(string, string)>, c: char)
    ensures c !in path && (forall k :: 0 <= k < |params| ==> c !in params[k].1) ==> c !in Substituted(path, params)
    decreases |params|
  {
    if params != [] && c !in path && (forall k :: 0 <= k < |params| ==> c !in params[k].1) {
      var next := ReplaceFirst(path, Placeholder(params[0].0), params[0].1);
      assert c !in next by {
        var p := Placeholder(params[0].0);
        if IndexOf(path, p).Some? {
          var i := IndexOf(path, p).value;
          var (before, after) := (path[..i], path[i + |p|..]);
          assert next == before + Expand(params[0].1, before, p, after) + after;
          assert c !in before && c !in after && c !in path[i..i + |p|];
          ExpandAvoids(params[0].1, before, p, after, c);
        }
      }
      forall k | 0 <= k < |params[1..]| ensures c !in params[1..][k].1 {
        assert params[1..][k] == params[k + 1];
      }
      NoNewChar(next, params[1..], c);
    }
  }

  /** An empty query object still appends a lone `?`. */
  lemma EmptyQueryMark(path: string, params: Option<seq<(string, string)>>)
    ensures HrefOf(path, params, Some([])) == Substituted(path, params.GetOr([])) + "?"
  {
  }

  /** The query string can be taken apart again: split on `&` it gives
      the `key=value` pairs, in order, as long as none holds an `&`. */
  lemma QueryRoundTrip(queryParams: seq<(string, string)>)
    requires |queryParams| >= 1
    requires forall k :: 0 <= k < |queryParams| ==> '&' !in queryParams[k].0 && '&' !in queryParams[k].1
    ensures Split(QueryString(queryParams), '&') == Pairs(queryParams)
  {
    var pairs := Pairs(queryParams);
    forall k | 0 <= k < |pairs| ensures '&' !in pairs[k] {
      assert pairs[k] == queryParams[k].0 + "=" + queryParams[k].1;
    }
    SplitJoin(pairs, '&');
  }

  /** A single param fills the first place its placeholder occurs with the
      value as `replace` expands it, and a value without `$` goes in
      unchanged; the rest of the template, including any later occurrence of
      the placeholder, is kept. */
  lemma FirstPlaceholderFilled(path: string, key: string, value: string, i: nat)
    requires i <= |path| && OccursAt(path, Placeholder(key), i)
    requires forall j: nat :: j < i ==> !OccursAt(path, Placeholder(key), j)
    ensures Substituted(path, [(key, value)])
            == path[..i] + Expand(value, path[..i], Placeholder(key), path[i + |key| + 1..]) + path[i + |key| + 1..]
    ensures '$' !in value ==> Substituted(path, [(key, value)]) == path[..i] + value + path[i + |key| + 1..]
  {
    var p := Placeholder(key);
    var params := [(key, value)];
    assert params[1..] == [];
    ReplaceFirstAt(path, p, value, i);
    calc {
      Substituted(path, params);
      Substituted(ReplaceFirst(path, p, value), []);
      path[..i] + Expand(value, path[..i], p, path[i + |p|..]) + path[i + |p|..];
    }
  }

  /** A value is not always inserted as written: the value `$&` puts the
      placeholder itself back, so the template comes out unchanged. */
  lemma DollarAmpersand(path: string, key: string, i: nat)
    requires i <= |path| && OccursAt(path, Placeholder(key), i)
    requires forall j: nat :: j < i ==> !OccursAt(path, Placeholder(key), j)
    ensures Substituted(path, [(key, "$&")]) == path
  {
    var (before, after) := (path[..i], path[i + |key| + 1..]);
    FirstPlaceholderFilled(path, key, "$&", i);
    ExpandMatched(before, Placeholder(key), after);
    Around(path, Placeholder(key), i);
  }

  /** A string is what comes before an occurrence, the occurrence and what
      comes after it. */
  lemma Around(s: string, p: string, i: nat)
    requires OccursAt(s, p, i)
    ensures s == s[..i] + p + s[i + |p|..]
  {
    assert s == s[..i] + s[i..i + |p|] + s[i + |p|..];
  }

  /** ... and `$$` becomes a single `$`: the value "AC$$DC" goes in as
      "AC$DC". */
  lemma DoubleDollar(path: string, key: string, i: nat)
    requires i <= |path| && OccursAt(path, Placeholder(key), i)
    requires forall j: nat :: j < i ==> !OccursAt(path, Placeholder(key), j)
    ensures Substituted(path, [(key, "AC$$DC")]) == path[..i] + "AC$DC" + path[i + |key| + 1..]
  {
    FirstPlaceholderFilled(path, key, "AC$$DC", i);
    ExpandDoubleDollar(path[..i], Placeholder(key), path[i + |key| + 1..]);
  }

  lemma ExpandMatched(before: string, matched: string, after: string)
    ensures Expand("$&", before, matched, after) == matched
  {
    assert "$&"[2..] == "";
  }

  lemma ExpandDoubleDollar(before: string, matched: string, after: string)
    ensures Expand("AC$$DC", before, matched, after) == "AC$DC"
  {
    assert "AC$$DC"[1..] == "C$$DC" && "C$$DC"[1..] == "$$DC" && "$$DC"[2..] == "DC";
    assert Expand("DC", before, matched, after) == "DC";
    assert Expand("$$DC", before, matched, after) == "$DC";
  }

  /** What a click on the link does, in order. */
  datatype Action = PreventDefault | StopPropagation | Navigate | CallOnGo | CallOnClick

  /** The `onClick` handler: a plain click stays in the app and navigates;
      with ctrl or meta held the browser's own handling is left alone. The
      caller's `onClick` is called either way. */
  function Click(ctrlKey: bool, metaKey: bool, hasOnGo: bool, hasOnClick: bool): (r: seq<Action>)
    ensures Navigate in r <==> !ctrlKey && !metaKey
    ensures PreventDefault in r <==> !ctrlKey && !metaKey
    ensures CallOnGo in r <==> !ctrlKey && !metaKey && hasOnGo
    ensures CallOnClick in r <==> hasOnClick
    ensures hasOnClick ==> r[|r| - 1] == CallOnClick
  {
    var own := if !ctrlKey && !metaKey then
                 [PreventDefault, StopPropagation, Navigate] + (if hasOnGo then [CallOnGo] else [])
               else [];
    own + (if hasOnClick then [CallOnClick] else [])
  }
}

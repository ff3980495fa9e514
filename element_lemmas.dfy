/** Properties of the element layer that relate several of its operations or
    that hold over whole parent chains and subtrees. */
module ElementLemmas {
  import opened SvgTypes
  import opened BuildPlan
  import opened SvgElement

  // ------------------------------------------------------------------ getPath

  /** The number of parent links from `e` up to the root. */
  ghost function Hops(e: Element, rank: map<Element, nat>): nat
    reads rank.Keys
    requires ParentsRanked(rank) && e in rank
    decreases rank[e]
  {
    if e.parent == null then 0 else 1 + Hops(e.parent, rank)
  }

  /** getPath lists one node per parent hop, plus the node itself. */
  lemma {:induction false} PathLength(e: Element, rank: map<Element, nat>)
    requires ParentsRanked(rank) && e in rank
    ensures |PathToRoot(e, rank)| == Hops(e, rank) + 1
    decreases rank[e]
  {
    if e.parent != null {
      PathLength(e.parent, rank);
    }
  }

  /** Any list that starts at a parentless node, links each node to the one
      before it, and ends at `e` is the path getPath returns. */
  lemma {:induction false} PathUnique(e: Element, rank: map<Element, nat>, p: seq<Element>)
    requires ParentsRanked(rank) && e in rank
    requires |p| >= 1 && p[|p| - 1] == e && p[0].parent == null
    requires forall k :: 0 < k < |p| ==> p[k].parent == p[k - 1]
    ensures p == PathToRoot(e, rank)
    decreases rank[e]
  {
    var n := |p| - 1;
    if n > 0 {
      assert p[n].parent == p[n - 1];
      var q := p[..n];
      assert q[n - 1] == e.parent;
      PathUnique(e.parent, rank, q);
      assert p == q + [e];
    }
  }

  // ------------------------------------------------------------------ getRoot

  /** getRoot is null exactly when no node on the path from the root of the
      tree down to `e` is an SVGRoot. */
  lemma {:induction false} RootNullIff(e: Element, rank: map<Element, nat>)
    requires ParentsRanked(rank) && e in rank
    ensures Root(e, rank) == null <==> forall k :: 0 <= k < |PathToRoot(e, rank)| ==> !PathToRoot(e, rank)[k].isSvgRoot
    decreases rank[e]
  {
    var path := PathToRoot(e, rank);
    if e.isSvgRoot {
      assert Root(e, rank) == e && PathToRoot(e, rank)[|path| - 1].isSvgRoot;
    } else if e.parent != null {
      var up := PathToRoot(e.parent, rank);
      RootNullIff(e.parent, rank);
      assert Root(e.parent, rank) == null <==>
        forall k :: 0 <= k < |PathToRoot(e.parent, rank)| ==> !PathToRoot(e.parent, rank)[k].isSvgRoot;
      assert path == up + [e];
      forall k | 0 <= k < |up|
        ensures path[k] == up[k]
      {
      }
      assert Root(e, rank) == Root(e.parent, rank) && path[|path| - 1] == e && !e.isSvgRoot;
    } else {
      assert path == [e];
    }
  }

  /** When getRoot finds an SVGRoot, it is the one nearest to `e`: no node
      after it on the path down to `e` is an SVGRoot. */
  lemma {:induction false} RootIsNearest(e: Element, rank: map<Element, nat>)
    requires ParentsRanked(rank) && e in rank && Root(e, rank) != null
    ensures exists k :: (0 <= k < |PathToRoot(e, rank)| && PathToRoot(e, rank)[k] == Root(e, rank) &&
                         forall j :: k < j < |PathToRoot(e, rank)| ==> !PathToRoot(e, rank)[j].isSvgRoot)
    decreases rank[e]
  {
    var path := PathToRoot(e, rank);
    var n := |path| - 1;
    if e.isSvgRoot {
      assert path[n] == Root(e, rank);
    } else {
      var up := PathToRoot(e.parent, rank);
      RootIsNearest(e.parent, rank);
      assert path == up + [e];
      var k :| 0 <= k < |up| && up[k] == Root(e.parent, rank) && forall j :: k < j < |up| ==> !up[j].isSvgRoot;
      assert path[k] == Root(e, rank);
      forall j | k < j < |path|
        ensures !path[j].isSvgRoot
      {
        if j < |up| {
          assert path[j] == up[j];
        }
      }
    }
  }

  // --------------------------------------------------------------- the cascade

  /** No node of `rank` holds `name` in either tier or as a track, and no
      style sheet reachable from them answers for it. */
  ghost predicate AbsentEverywhere(name: string, rank: map<Element, nat>)
    reads rank.Keys
  {
    forall x :: x in rank ==>
      && name !in x.inlineStyles && name !in x.presAttribs
      && (name, Css) !in x.tracks && (name, Xml) !in x.tracks
      && (x.styleSheet.Some? ==> forall y :: y in rank ==> x.styleSheet.value.lookup(name, y.tagName, y.cssClass).None?)
  }

  /** getStyle finds nothing, and leaves the cell empty, for a name that is
      nowhere along the resolution chain. */
  lemma {:induction false} StyleAbsent(e: Element, name: string, recursive: bool, evalAnimation: bool,
                                       eval: TrackEval, rank: map<Element, nat>)
    requires Ranked(rank) && e in rank && AbsentEverywhere(name, rank)
    ensures Style(e, name, recursive, evalAnimation, eval, rank) == Lookup(false, "")
    decreases rank[e]
  {
    var root := Root(e, rank);
    if root == null || root.styleSheet.None? {
      var p := ResolutionParent(e);
      if recursive && p != null {
        StyleAbsent(p, name, true, true, eval, rank);
      }
    }
  }

  /** The ancestor step of getStyle goes through getStyle(attrib, true), which
      evaluates animation whatever the caller asked for. */
  lemma AncestorEvaluatesAnimation(e: Element, name: string, eval: TrackEval, rank: map<Element, nat>)
    requires Ranked(rank) && e in rank
    requires LocalStyle(e, name, false, eval).None?
    requires Root(e, rank) == null || Root(e, rank).styleSheet.None?
    requires ResolutionParent(e) != null
    ensures Style(e, name, true, false, eval, rank) == Style(ResolutionParent(e), name, true, true, eval, rank)
  {
  }

  /** A pushed parent context, not the structural parent, is where an
      unresolved lookup continues. */
  lemma ContextOverridesParent(e: Element, name: string, evalAnimation: bool, eval: TrackEval,
                               rank: map<Element, nat>)
    requires Ranked(rank) && e in rank && e.contexts != []
    requires LocalStyle(e, name, evalAnimation, eval).None?
    requires Root(e, rank) == null || Root(e, rank).styleSheet.None?
    ensures Style(e, name, true, evalAnimation, eval, rank) ==
            Style(e.contexts[|e.contexts| - 1], name, true, true, eval, rank)
  {
  }

  /** With no inline entry and no inline track, getStyle with animation
      answers what getPres answers whenever getPres finds something. */
  lemma StyleAgreesWithPres(e: Element, name: string, recursive: bool, eval: TrackEval, rank: map<Element, nat>)
    requires Ranked(rank) && e in rank
    requires name !in e.inlineStyles && (name, Css) !in e.tracks && Pres(e, name, eval).found
    ensures Style(e, name, recursive, true, eval, rank) == Pres(e, name, eval)
  {
  }

  // --------------------------------------------------------- attribute store

  /** hasAttribute(AUTO) is the disjunction of the two tiers. */
  lemma HasAttributeAuto(e: Element, name: string)
    ensures e.HasAttribute(name, Auto) ==
            Ok(e.HasAttribute(name, Css).value || e.HasAttribute(name, Xml).value)
  {
  }

  // ------------------------------------------------------------ setDiagram / build

  /** Once getRoot's style sheet is reached, its answer ends the cascade:
      neither `recursive` nor anything the parent or a context holds matters. */
  lemma SheetEndsCascade(e: Element, name: string, evalAnimation: bool, eval: TrackEval, rank: map<Element, nat>)
    requires Ranked(rank) && e in rank
    requires LocalStyle(e, name, evalAnimation, eval).None?
    requires Root(e, rank) != null && Root(e, rank).styleSheet.Some?
    ensures Style(e, name, true, evalAnimation, eval, rank) == Style(e, name, false, evalAnimation, eval, rank)
    ensures Style(e, name, true, evalAnimation, eval, rank) == SheetLookup(Root(e, rank).styleSheet.value, name, e)
  {
  }

  /** Every child of `e` is visited by the walk over `e`'s subtree, so
      setDiagram and build reach it. */
  lemma {:induction false} OrderCoversChildren(kids: map<Element, seq<Element>>, height: map<Element, nat>, e: Element)
    requires GroundedIn(kids, height) && e in height
    ensures forall k :: 0 <= k < |kids[e]| ==> kids[e][k] in Order(kids, height, e)
  {
    forall k | 0 <= k < |kids[e]|
      ensures kids[e][k] in Order(kids, height, e)
    {
      OrderAllCovers(kids, height, kids[e], height[e], k);
    }
  }

  /** The walk over a list of subtrees visits the root of each. */
  lemma {:induction false} OrderAllCovers(kids: map<Element, seq<Element>>, height: map<Element, nat>,
                                          cs: seq<Element>, bound: nat, k: nat)
    requires GroundedIn(kids, height)
    requires forall j :: 0 <= j < |cs| ==> cs[j] in height && height[cs[j]] < bound
    requires k < |cs|
    ensures cs[k] in OrderAll(kids, height, cs, bound)
    decreases |cs|
  {
    var n := |cs| - 1;
    if k == n {
      assert Order(kids, height, cs[n])[0] == cs[k];
    } else {
      OrderAllCovers(kids, height, cs[..n], bound, k);
      assert cs[..n][k] == cs[k];
    }
  }

  /** After build, a visited node carries the class its presentation tier
      resolves, or keeps its class when the tier has none; the same for the
      id and for xml:base, read as a URI. */
  lemma BuildRefreshes(s: State<Element>, order: seq<Element>, pres: map<Element, Tier>,
                       eval: TrackEval, parseUri: string -> Option<string>, x: Element)
    requires x in s.fields && x in order && x in pres
    ensures var f := Walk(s, order, Updates(pres, eval, parseUri)).fields[x];
      && f.id == (if TargetIn(x, pres[x], "id", eval).Some? then TargetIn(x, pres[x], "id", eval) else s.fields[x].id)
      && f.cssClass == (if TargetIn(x, pres[x], "class", eval).Some? then TargetIn(x, pres[x], "class", eval)
                        else s.fields[x].cssClass)
      && f.xmlBase == (if TargetIn(x, pres[x], "xml:base", eval).Some?
                       then parseUri(TargetIn(x, pres[x], "xml:base", eval).value) else s.fields[x].xmlBase)
  {
    WalkFields(s, order, Updates(pres, eval, parseUri));
  }
}

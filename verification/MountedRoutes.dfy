/** Mounting into a builder that already has routes. */
module MountedRoutes {
  import opened Text
  import opened RouteTree
  import opened RouteFiling
  import opened Patterns
  import opened PatternProofs
  import opened Lookup
  import opened LookupProofs
  import opened RouteMap
  import opened Router
  import opened Declarations
  import opened RouteTexts
  import opened Mounts

  /** `RouterBuilder`: the declarations, in order. */
  class RouteBuilder {
    var routes: seq<Decl>

    constructor ()
      ensures routes == []
    {
      routes := [];
    }

    method Add(mtd: HttpMethod, path: string, ctrl: Controller)
      modifies this
      ensures routes == old(routes) + [Decl(mtd, path, ctrl)]
    {
      routes := routes + [Decl(mtd, path, ctrl)];
    }

    /** `RouterBuilder::add(prefix, subRoutes)`, of another builder. */
    method AddAll(prefix: string, sub: RouteBuilder)
      requires sub != this
      modifies this
      ensures routes == Mount(old(routes), prefix, sub.routes)
    {
      if !IsSubRoutePrefix(prefix) {
        return;
      }
      ghost var before := routes;
      for j := 0 to |sub.routes|
        invariant sub.routes == old(sub.routes)
        invariant routes == before + Prefixed(prefix, sub.routes[..j])
      {
        var r := sub.routes[j];
        Add(r.mtd, prefix + r.path, r.ctrl);
        assert Prefixed(prefix, sub.routes[..j + 1]) == Prefixed(prefix, sub.routes[..j]) + [r.(path := prefix
               + r.path)];
      }
      assert sub.routes[..|sub.routes|] == sub.routes;
    }
  }

  // ---------------------------------------------------------------- the builder's own routes

  /** The builder's own routes are judged and filed as without the mounted ones. */
  lemma OwnAreFiled(rs: seq<Decl>, prefix: string, sub: seq<Decl>, base: string, k: nat, compiles: Compiler)
    requires k < |rs|
    ensures var all := Mount(rs, prefix, sub);
            && k < |all| && all[k] == rs[k]
            && AcceptedAt(all, k, base, compiles) == AcceptedAt(rs, k, base, compiles)
            && FiledBefore(all, k, base, compiles) == FiledBefore(rs, k, base, compiles)
  {
    assert Mount(rs, prefix, sub)[..k] == rs[..k];
  }

  /** Each of them that was accepted is served where it was filed, at its own controller, whatever is mounted. */
  lemma OwnAreServed(g: Forest, rs: seq<Decl>, prefix: string, sub: seq<Decl>, base: string, compiles: Compiler, k: nat,
                     fills: seq<string>, params: Params, acc: Matcher)
    requires Grown(g, Mount(rs, prefix, sub), base, compiles) && k < |rs| && AcceptedAt(rs, k, base, compiles)
    requires Fits(FiledAs(rs, k, base, compiles), fills, acc)
    ensures var t := FiledAs(rs, k, base, compiles);
            Serve(g, rs[k].mtd, Fill(t, fills), params, acc)
            == Found(Some(rs[k].ctrl), Bind(t, fills, acc, params), false)
  {
    hide Grown, Serve, Fits, Fill, Bind, AcceptedAt, FiledEntry, Mount;
    OwnAreFiled(rs, prefix, sub, base, k, compiles);
    DeclaredIsServed(g, Mount(rs, prefix, sub), base, compiles, k, fills, params, acc);
  }

  // ---------------------------------------------------------------- the mounted routes

  /** What is filed for the method of mounted route `j` when its turn comes. */
  ghost function FiledForMounted(rs: seq<Decl>, prefix: string, sub: seq<Decl>, j: nat, compiles: Compiler): Table
    requires j < |sub| && IsSubRoutePrefix(prefix)
  {
    FiledBefore(Mount(rs, prefix, sub), |rs| + j, "", compiles)
  }

  /** A mounted route that parses behind the prefix and collides with nothing filed before is accepted. */
  lemma MountedIsAccepted(rs: seq<Decl>, prefix: string, sub: seq<Decl>, j: nat, compiles: Compiler)
    requires j < |sub| && IsSubRoutePrefix(prefix) && Parse(prefix + sub[j].path, compiles).Some?
    requires forall t :: t in FiledForMounted(rs, prefix, sub, j, compiles) ==>
               !Conflict(Parse(prefix + sub[j].path, compiles).value.calced, t)
    ensures var (all, k) := (Mount(rs, prefix, sub), |rs| + j);
            && k < |all| && all[k] == Decl(sub[j].mtd, prefix + sub[j].path, sub[j].ctrl)
            && Asked(all[k], "") == Entry(prefix + sub[j].path, sub[j].ctrl)
            && AcceptedAt(all, k, "", compiles)
  {
    hide AcceptedAt, Parse, Conflict, FiledBefore;
    var (all, k) := (Mount(rs, prefix, sub), |rs| + j);
    assert "" + (prefix + sub[j].path) == prefix + sub[j].path;
    AcceptedByMap(all, k, "", compiles);
  }

  /** It is served behind the prefix, at its own controller: for the requests that its text asks for there. */
  lemma MountedIsServed(g: Forest, rs: seq<Decl>, prefix: string, sub: seq<Decl>, compiles: Compiler, j: nat,
                        fills: seq<string>, params: Params, acc: Matcher)
    requires Grown(g, Mount(rs, prefix, sub), "", compiles) && j < |sub| && IsSubRoutePrefix(prefix)
    requires Parse(prefix + sub[j].path, compiles).Some?
    requires forall t :: t in FiledForMounted(rs, prefix, sub, j, compiles) ==>
               !Conflict(Parse(prefix + sub[j].path, compiles).value.calced, t)
    requires var e := Entry(prefix + sub[j].path, sub[j].ctrl);
             var p := Parse(e.path, compiles).value;
             && SpelledAt(FiledForMounted(rs, prefix, sub, j, compiles), e, compiles)
             && CatchAllLast(p.calced, p.params)
             && Fits(Pattern(e, compiles), fills, acc)
    ensures var t := Pattern(Entry(prefix + sub[j].path, sub[j].ctrl), compiles);
            Serve(g, sub[j].mtd, Scan(prefix + sub[j].path, fills), params, acc)
            == Found(Some(sub[j].ctrl), Bind(t, fills, acc, params), false)
    ensures '{' !in prefix ==> Scan(prefix + sub[j].path, fills) == prefix + Scan(sub[j].path, fills)
  {
    hide Grown, Serve, Fits, Bind, AcceptedAt, Parse, Conflict, FiledBefore, SpelledAt, Pattern, Scan, CatchAllLast,
         Mount,
         IsSubRoutePrefix;
    MountedIsAccepted(rs, prefix, sub, j, compiles);
    assert "" + (prefix + sub[j].path) == prefix + sub[j].path;
    RouteTextIsServed(g, Mount(rs, prefix, sub), "", compiles, |rs| + j, fills, params, acc);
    if '{' !in prefix {
      ScanCopies(prefix, sub[j].path, fills);
    }
  }

  /** A prefix that is no prefix for sub-routes changes no answer. */
  lemma BadPrefixMountsNothing(f: Forest, g: Forest, rs: seq<Decl>, prefix: string, sub: seq<Decl>, base: string,
                               compiles: Compiler, mtd: HttpMethod, request: string, params: Params, acc: Matcher)
    requires !IsSubRoutePrefix(prefix) && Grown(f, rs, base, compiles)
             && Grown(g, Mount(rs, prefix, sub), base, compiles)
    ensures Serve(g, mtd, request, params, acc) == Serve(f, mtd, request, params, acc)
  {
    MethodIsolation(f, rs, base, compiles, mtd, request, params, acc);
    MethodIsolation(g, rs, base, compiles, mtd, request, params, acc);
  }
}

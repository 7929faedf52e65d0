/** The router in terms of what was declared: which addition each declaration is, and what it is served by. */
module Declarations {
  import opened Text
  import opened RouteTree
  import opened Patterns
  import opened Lookup
  import opened LookupProofs
  import opened RouteMap
  import opened Router

  // ---------------------------------------------------------------- the additions of a method

  /** The declarations for `mtd` among the first `k`. */
  function Earlier(rs: seq<Decl>, k: nat, mtd: HttpMethod): set<nat>
    requires k <= |rs|
  {
    set j | 0 <= j < k && rs[j].mtd == mtd
  }

  lemma EarlierStep(rs: seq<Decl>, k: nat, mtd: HttpMethod)
    requires k < |rs|
    ensures |Earlier(rs, k + 1, mtd)| == |Earlier(rs, k, mtd)| + if rs[k].mtd == mtd then 1 else 0
  {
    var before, after := Earlier(rs, k, mtd), Earlier(rs, k + 1, mtd);
    forall j: nat ensures j in after <==> j in before || (j == k && rs[k].mtd == mtd) {
    }
    hide Earlier;
    if rs[k].mtd == mtd {
      assert after == before + {k};
    } else {
      assert after == before;
    }
  }

  lemma {:induction false} EntriesCount(rs: seq<Decl>, prefix: string, mtd: HttpMethod, k: nat)
    requires k <= |rs|
    ensures |EntriesOf(rs[..k], prefix, mtd)| == |Earlier(rs, k, mtd)|
    decreases k
  {
    if k > 0 {
      EntriesCount(rs, prefix, mtd, k - 1);
      EarlierStep(rs, k - 1, mtd);
      assert rs[..k][..k - 1] == rs[..k - 1];
    }
  }

  /** Declaration `k` is, for its method, the addition after those of the earlier declarations, with the prefix
      before its path and its own controller. */
  lemma {:induction false} DeclarationIsEntry(rs: seq<Decl>, prefix: string, k: nat, n: nat)
    requires k < n <= |rs|
    ensures var (es, p) := (EntriesOf(rs[..n], prefix, rs[k].mtd), |Earlier(rs, k, rs[k].mtd)|);
            && p < |es| && es[p] == Entry(prefix + rs[k].path, rs[k].ctrl)
            && es[..p] == EntriesOf(rs[..k], prefix, rs[k].mtd)
    decreases n
  {
    var mtd := rs[k].mtd;
    assert rs[..n][..n - 1] == rs[..n - 1];
    EntriesCount(rs, prefix, mtd, k);
    if k < n - 1 {
      DeclarationIsEntry(rs, prefix, k, n - 1);
    }
  }

  /** And there are no other additions. */
  lemma {:induction false} EntryIsDeclaration(rs: seq<Decl>, prefix: string, mtd: HttpMethod, i: nat) returns (k: nat)
    requires i < |EntriesOf(rs, prefix, mtd)|
    ensures k < |rs| && rs[k].mtd == mtd && |Earlier(rs, k, mtd)| == i
    decreases |rs|
  {
    var n := |rs| - 1;
    EntriesCount(rs, prefix, mtd, n);
    if i < |EntriesOf(rs[..n], prefix, mtd)| {
      k := EntryIsDeclaration(rs[..n], prefix, mtd, i);
      assert Earlier(rs[..n], k, mtd) == Earlier(rs, k, mtd);
    } else {
      k := n;
    }
  }

  // ---------------------------------------------------------------- declarations are served

  /** What was filed for the method of declaration `k` before it. */
  ghost function FiledBefore(rs: seq<Decl>, k: nat, prefix: string, compiles: Compiler): Table
    requires k < |rs|
  {
    FiledOf(EntriesOf(rs[..k], prefix, rs[k].mtd), compiles)
  }

  /** The addition a declaration asks for. */
  function Asked(r: Decl, prefix: string): Entry {
    Entry(prefix + r.path, r.ctrl)
  }

  /** Its tree accepts declaration `k` if and only if it parses and collides with nothing filed before. */
  lemma AcceptedByMap(rs: seq<Decl>, k: nat, prefix: string, compiles: Compiler)
    requires k < |rs|
    ensures AcceptedAt(rs, k, prefix, compiles)
            <==> Accepts(FiledBefore(rs, k, prefix, compiles), Asked(rs[k], prefix), compiles)
  {
    var es := EntriesOf(rs[..k], prefix, rs[k].mtd);
    TreeIsFiled(es, compiles);
    AcceptsAgree(TreeOf(es, compiles), FiledOf(es, compiles), Asked(rs[k], prefix), compiles);
  }

  /** Where an accepted declaration is filed. */
  ghost function FiledAs(rs: seq<Decl>, k: nat, prefix: string, compiles: Compiler): Route
    requires k < |rs| && AcceptedAt(rs, k, prefix, compiles)
  {
    AcceptedByMap(rs, k, prefix, compiles);
    FiledEntry(FiledBefore(rs, k, prefix, compiles), Asked(rs[k], prefix), compiles)
  }

  /** Every accepted declaration is served where it is filed, at its own controller, whatever else is declared. */
  lemma DeclaredIsServed(f: Forest, rs: seq<Decl>, prefix: string, compiles: Compiler, k: nat,
                         fills: seq<string>, params: Params, acc: Matcher)
    requires Grown(f, rs, prefix, compiles) && k < |rs| && AcceptedAt(rs, k, prefix, compiles)
    requires Fits(FiledAs(rs, k, prefix, compiles), fills, acc)
    ensures var t := FiledAs(rs, k, prefix, compiles);
            Serve(f, rs[k].mtd, Fill(t, fills), params, acc)
            == Found(Some(rs[k].ctrl), Bind(t, fills, acc, params), false)
  {
    hide AddRoute, TreeOf, FiledOf, Fits, Serve, EntriesOf, Grown, Accepts, Bind, FiledEntry, AcceptedAt, Earlier;
    AcceptedByMap(rs, k, prefix, compiles);
    DeclarationIsEntry(rs, prefix, k, |rs|);
    assert rs[..|rs|] == rs;
    EntryIsServed(f, rs, prefix, compiles, rs[k].mtd, |Earlier(rs, k, rs[k].mtd)|, fills, params, acc);
  }

  /** It is served as spelled if it repeats the parameters it shares with what was filed before it. */
  lemma DeclaredAlone(f: Forest, rs: seq<Decl>, prefix: string, compiles: Compiler, k: nat,
                      fills: seq<string>, params: Params, acc: Matcher)
    requires Grown(f, rs, prefix, compiles) && k < |rs| && AcceptedAt(rs, k, prefix, compiles)
    requires SpelledAt(FiledBefore(rs, k, prefix, compiles), Asked(rs[k], prefix), compiles)
    requires Fits(Pattern(Asked(rs[k], prefix), compiles), fills, acc)
    ensures var t := Pattern(Asked(rs[k], prefix), compiles);
            Serve(f, rs[k].mtd, Fill(t, fills), params, acc)
            == Found(Some(rs[k].ctrl), Bind(t, fills, acc, params), false)
  {
    hide AddRoute, TreeOf, FiledOf, Fits, Serve, EntriesOf, Grown, Bind, FiledEntry, AcceptedAt, SpelledAt,
         Pattern;
    var es := EntriesOf(rs[..k], prefix, rs[k].mtd);
    AcceptedByMap(rs, k, prefix, compiles);
    TreeIsFiled(es, compiles);
    FiledEntrySpelled(TreeOf(es, compiles), FiledOf(es, compiles), Asked(rs[k], prefix), compiles);
    DeclaredIsServed(f, rs, prefix, compiles, k, fills, params, acc);
  }

  // ---------------------------------------------------------------- nothing else is served

  /** Every filed pattern comes from an accepted addition, with its controller. */
  lemma {:induction false} FiledFrom(es: seq<Entry>, n: nat, t: Route, compiles: Compiler) returns (i: nat)
    requires n <= |es| && t in FiledOf(es[..n], compiles)
    ensures i < n && AcceptedEntry(es, i, compiles) && FiledAt(es, i, compiles) == t
    ensures es[i].ctrl == FiledOf(es[..n], compiles)[t]
    decreases n
  {
    hide FiledEntry;
    if n == 0 {
      assert false;
    }
    FiledLast(es, n - 1, compiles);
    var m := FiledOf(es[..n - 1], compiles);
    if Accepts(m, es[n - 1], compiles) && t == FiledEntry(m, es[n - 1], compiles) {
      i := n - 1;
    } else {
      i := FiledFrom(es, n - 1, t, compiles);
    }
  }

  /** Whatever is served for a method is the controller of an accepted declaration for it, whose filed pattern
      explains the request. */
  lemma ServedIsDeclared(f: Forest, rs: seq<Decl>, prefix: string, compiles: Compiler, mtd: HttpMethod,
                         request: string, params: Params, acc: Matcher)
      returns (k: nat, fills: seq<string>, junk: string)
    requires Grown(f, rs, prefix, compiles) && Serve(f, mtd, request, params, acc).ctrl.Some?
    ensures k < |rs| && rs[k].mtd == mtd && AcceptedAt(rs, k, prefix, compiles)
    ensures Explains(FiledAs(rs, k, prefix, compiles), fills, junk, request, acc)
    ensures Serve(f, mtd, request, params, acc)
            == Found(Some(rs[k].ctrl), Bind(FiledAs(rs, k, prefix, compiles), fills, acc, params), false)
  {
    hide AddRoute, TreeOf, FiledOf, Serve, EntriesOf, Grown, Accepts, Bind, FiledEntry, AcceptedAt, Explains, Earlier;
    var t;
    t, fills, junk := RouterSound(f, rs, prefix, compiles, mtd, request, params, acc);
    var es := EntriesOf(rs, prefix, mtd);
    assert es[..|es|] == es;
    var i := FiledFrom(es, |es|, t, compiles);
    k := EntryIsDeclaration(rs, prefix, mtd, i);
    DeclarationIsEntry(rs, prefix, k, |rs|);
    assert rs[..|rs|] == rs;
    AcceptedByMap(rs, k, prefix, compiles);
  }
}

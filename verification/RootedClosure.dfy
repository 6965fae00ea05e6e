/** The rooted closure of `ble_init_profile.rs`: starting from the root symbols, select the archive
    members that define what is needed, in the order a linker would meet the need. */
module RootedClosure {
  import opened Bytes

  type Symbol = string

  /** `undefined` lists the undefined globals in their set order, in which they are queued. */
  datatype Member = Member(defined: set<Symbol>, undefined: seq<Symbol>)

  datatype Selection = Selection(member: nat, cause: Symbol)

  datatype Closure = Closure(selected: seq<Selection>, resolved: set<Symbol>, unresolved: set<Symbol>)

  datatype ClosureError = NotInInventory(callback: Symbol) | NoProvider(callback: Symbol)

  // ----- what the closure is about -----

  ghost predicate Provides(members: seq<Member>, p: int, s: Symbol) {
    0 <= p < |members| && s in members[p].defined
  }

  ghost predicate IsFirstProvider(members: seq<Member>, p: int, s: Symbol) {
    Provides(members, p, s) && forall q :: 0 <= q < p ==> !Provides(members, q, s)
  }

  ghost predicate Unprovided(members: seq<Member>, s: Symbol) {
    forall p :: !Provides(members, p, s)
  }

  /** Undefined in one of the first `k` selected members. */
  ghost predicate NeededBy(members: seq<Member>, chosen: seq<Selection>, k: nat, s: Symbol) {
    exists i :: 0 <= i < k && i < |chosen| && chosen[i].member < |members| && s in members[chosen[i].member].undefined
  }

  ghost predicate Wanted(members: seq<Member>, roots: seq<Symbol>, chosen: seq<Selection>, k: nat, s: Symbol) {
    s in roots || NeededBy(members, chosen, k, s)
  }

  ghost predicate DefinedBy(members: seq<Member>, chosen: seq<Selection>, s: Symbol) {
    exists i :: 0 <= i < |chosen| && Provides(members, chosen[i].member, s)
  }

  /** Each selected member is selected once, by a symbol whose first provider it is and that is a root or
      undefined in a member selected before. */
  ghost predicate Justified(members: seq<Member>, roots: seq<Symbol>, external: set<Symbol>, chosen: seq<Selection>) {
    && (forall i :: 0 <= i < |chosen| ==>
          && IsFirstProvider(members, chosen[i].member, chosen[i].cause)
          && chosen[i].cause !in external
          && Wanted(members, roots, chosen, i, chosen[i].cause))
    && (forall i, j :: 0 <= i < j < |chosen| ==> chosen[i].member != chosen[j].member)
  }

  /** Every root and every undefined symbol of a selected member is accounted for. */
  ghost predicate ClosedUnder(members: seq<Member>, roots: seq<Symbol>, external: set<Symbol>, c: Closure) {
    forall s :: Wanted(members, roots, c.selected, |c.selected|, s) ==>
      s in external || DefinedBy(members, c.selected, s) || s in c.unresolved
  }

  ghost predicate UnresolvedExactly(members: seq<Member>, roots: seq<Symbol>, external: set<Symbol>, c: Closure) {
    forall s :: s in c.unresolved <==>
      Wanted(members, roots, c.selected, |c.selected|, s) && s !in external && Unprovided(members, s)
  }

  // ----- the provider index -----

  /** The members that define `s`, in order. */
  function ProvidersOf(members: seq<Member>, s: Symbol): seq<nat> {
    if members == [] then []
    else
      var last := |members| - 1;
      ProvidersOf(members[..last], s) + if s in members[last].defined then [last] else []
  }

  lemma {:induction false} FirstOfProviders(members: seq<Member>, s: Symbol)
    ensures ProvidersOf(members, s) == [] <==> Unprovided(members, s)
    ensures ProvidersOf(members, s) != [] ==> IsFirstProvider(members, ProvidersOf(members, s)[0], s)
  {
    if members != [] {
      var last := |members| - 1;
      var front := members[..last];
      FirstOfProviders(front, s);
      assert forall p :: Provides(members, p, s) <==>
          Provides(front, p, s) || (p == last && s in members[last].defined);
    } else {
      assert forall p :: !Provides(members, p, s);
    }
  }

  method IndexProviders(members: seq<Member>) returns (providers: map<Symbol, seq<nat>>)
    ensures forall s :: s in providers <==> ProvidersOf(members, s) != []
    ensures forall s :: s in providers ==> providers[s] == ProvidersOf(members, s)
  {
    providers := map[];
    for index := 0 to |members|
      invariant forall s :: s in providers <==> ProvidersOf(members[..index], s) != []
      invariant forall s :: s in providers ==> providers[s] == ProvidersOf(members[..index], s)
    {
      assert members[..index + 1][..index] == members[..index];
      var defined := members[index].defined;
      providers := map s | s in providers.Keys + defined ::
        (if s in providers then providers[s] else []) + if s in defined then [index] else [];
    }
    assert members[..|members|] == members;
  }

  // ----- the worklist -----

  /** Everything wanted is external, defined, unresolved, or still queued. */
  ghost predicate Covered(members: seq<Member>, roots: seq<Symbol>, external: set<Symbol>, c: Closure,
                          pending: seq<Symbol>) {
    forall s :: Wanted(members, roots, c.selected, |c.selected|, s) ==>
      s in external || s in c.resolved || s in c.unresolved || s in pending
  }

  ghost predicate Invariant(members: seq<Member>, roots: seq<Symbol>, external: set<Symbol>, c: Closure,
                            pending: seq<Symbol>) {
    && Justified(members, roots, external, c.selected)
    && (forall s :: s in c.resolved <==> DefinedBy(members, c.selected, s))
    && (forall s :: s in c.unresolved ==>
          Wanted(members, roots, c.selected, |c.selected|, s) && s !in external && Unprovided(members, s))
    && (forall s :: s in pending ==> Wanted(members, roots, c.selected, |c.selected|, s))
    && Covered(members, roots, external, c, pending)
  }

  function Picked(chosen: seq<Selection>): set<nat> { set i | 0 <= i < |chosen| :: chosen[i].member }

  lemma {:induction false} PickedCount(chosen: seq<Selection>)
    requires forall i, j :: 0 <= i < j < |chosen| ==> chosen[i].member != chosen[j].member
    ensures |Picked(chosen)| == |chosen|
  {
    if chosen != [] {
      var front, last := chosen[..|chosen| - 1], chosen[|chosen| - 1];
      PickedCount(front);
      assert chosen == front + [last];
      PickedMore(front, last);
      assert last.member !in Picked(front);
    }
  }

  /** Fewer selections than members: the outer part of the termination measure. */
  lemma SelectedBound(members: seq<Member>, chosen: seq<Selection>)
    requires forall i :: 0 <= i < |chosen| ==> chosen[i].member < |members|
    requires forall i, j :: 0 <= i < j < |chosen| ==> chosen[i].member != chosen[j].member
    ensures |chosen| <= |members|
  {
    PickedCount(chosen);
    BelowCount(|members|);
    SubsetCount(Picked(chosen), Below(|members|));
  }

  function Below(n: nat): (r: set<nat>)
    ensures forall i: nat :: i in r <==> i < n
  {
    if n == 0 then {} else Below(n - 1) + {n - 1}
  }

  lemma {:induction false} BelowCount(n: nat)
    ensures |Below(n)| == n
  {
    if n > 0 {
      BelowCount(n - 1);
      assert n - 1 !in Below(n - 1);
    }
  }

  lemma {:induction false} SubsetCount(small: set<nat>, large: set<nat>)
    requires small <= large
    ensures |small| <= |large|
  {
    if small != {} {
      var x :| x in small;
      SubsetCount(small - {x}, large - {x});
    }
  }

  // ----- one step of the worklist -----

  function Select(c: Closure, members: seq<Member>, provider: nat, symbol: Symbol): Closure
    requires provider < |members|
  {
    c.(selected := c.selected + [Selection(provider, symbol)],
       resolved := c.resolved + {symbol} + members[provider].defined)
  }

  /** The dependencies that are queued: neither resolved nor external. */
  function Fresh(undefined: seq<Symbol>, resolved: set<Symbol>, external: set<Symbol>): (r: seq<Symbol>)
    ensures forall s :: s in r <==> s in undefined && s !in resolved && s !in external
  {
    if undefined == [] then []
    else
      var front, last := undefined[..|undefined| - 1], undefined[|undefined| - 1];
      Fresh(front, resolved, external) + if last in resolved || last in external then [] else [last]
  }

  lemma WantedMore(members: seq<Member>, roots: seq<Symbol>, chosen: seq<Selection>, last: Selection, s: Symbol)
    requires last.member < |members|
    ensures Wanted(members, roots, chosen + [last], |chosen| + 1, s)
       <==> Wanted(members, roots, chosen, |chosen|, s) || s in members[last.member].undefined
    ensures DefinedBy(members, chosen + [last], s) <==>
              DefinedBy(members, chosen, s) || s in members[last.member].defined
  {
    var more := chosen + [last];
    assert more[|chosen|] == last;
    assert forall i :: 0 <= i < |chosen| ==> more[i] == chosen[i];
    if NeededBy(members, chosen, |chosen|, s) {
      var i :| 0 <= i < |chosen| && chosen[i].member < |members| && s in members[chosen[i].member].undefined;
      assert more[i] == chosen[i];
    }
    if DefinedBy(members, chosen, s) {
      var i :| 0 <= i < |chosen| && Provides(members, chosen[i].member, s);
      assert Provides(members, more[i].member, s);
    }
    assert s in members[last.member].defined ==> Provides(members, more[|chosen|].member, s);
  }

  lemma WantedPrefix(members: seq<Member>, roots: seq<Symbol>, chosen: seq<Selection>, last: Selection, k: nat,
                     s: Symbol)
    requires k <= |chosen|
    ensures Wanted(members, roots, chosen + [last], k, s) <==> Wanted(members, roots, chosen, k, s)
  {
    assert forall i :: 0 <= i < |chosen| ==> (chosen + [last])[i] == chosen[i];
  }

  lemma SelectedDefines(members: seq<Member>, chosen: seq<Selection>, p: nat, s: Symbol)
    requires Provides(members, p, s)
    ensures p in Picked(chosen) ==> DefinedBy(members, chosen, s)
  {
    if p in Picked(chosen) {
      var i :| 0 <= i < |chosen| && chosen[i].member == p;
      assert Provides(members, chosen[i].member, s);
    }
  }

  lemma DefinedProvided(members: seq<Member>, chosen: seq<Selection>, s: Symbol)
    ensures DefinedBy(members, chosen, s) ==> !Unprovided(members, s)
  {
  }

  lemma SelectJustified(members: seq<Member>, roots: seq<Symbol>, external: set<Symbol>, c: Closure,
                        pending: seq<Symbol>, symbol: Symbol, provider: nat)
    requires Invariant(members, roots, external, c, pending)
    requires symbol in pending && symbol !in external && symbol !in c.resolved
             && IsFirstProvider(members, provider, symbol)
    ensures Justified(members, roots, external, Select(c, members, provider, symbol).selected)
  {
    hide Wanted, Covered;
    var last := Selection(provider, symbol);
    var more := c.selected + [last];
    forall i | 0 <= i < |more|
      ensures IsFirstProvider(members, more[i].member, more[i].cause) && more[i].cause !in external
              && Wanted(members, roots, more, i, more[i].cause)
    {
      WantedPrefix(members, roots, c.selected, last, i, more[i].cause);
      assert i < |c.selected| ==> more[i] == c.selected[i];
    }
    SelectedDefines(members, c.selected, provider, symbol);
    assert forall i :: 0 <= i < |c.selected| ==> c.selected[i].member in Picked(c.selected);
  }

  /** What is wanted and what is defined after a selection. */
  ghost predicate Advanced(members: seq<Member>, roots: seq<Symbol>, c: Closure, next: Closure, provider: nat)
    requires provider < |members|
  {
    && (forall s :: Wanted(members, roots, next.selected, |next.selected|, s)
          <==> Wanted(members, roots, c.selected, |c.selected|, s) || s in members[provider].undefined)
    && (forall s :: DefinedBy(members, next.selected, s)
          <==> DefinedBy(members, c.selected, s) || s in members[provider].defined)
  }

  lemma SelectAdvances(members: seq<Member>, roots: seq<Symbol>, c: Closure, provider: nat, symbol: Symbol)
    requires provider < |members|
    ensures Advanced(members, roots, c, Select(c, members, provider, symbol), provider)
  {
    hide Wanted, DefinedBy;
    forall s {
      WantedMore(members, roots, c.selected, Selection(provider, symbol), s);
    }
  }

  lemma SelectCovered(members: seq<Member>, roots: seq<Symbol>, external: set<Symbol>, c: Closure, next: Closure,
                      pending: seq<Symbol>, added: seq<Symbol>, provider: nat)
    requires provider < |members| && pending != [] && Advanced(members, roots, c, next, provider)
    requires Covered(members, roots, external, c, pending)
    requires c.resolved <= next.resolved && pending[0] in next.resolved && next.unresolved == c.unresolved
    requires added == Fresh(members[provider].undefined, next.resolved, external)
    ensures Covered(members, roots, external, next, pending[1..] + added)
  {
    hide Wanted, DefinedBy;
    TailKeeps(pending);
  }

  lemma SelectQueue(members: seq<Member>, roots: seq<Symbol>, external: set<Symbol>, c: Closure, next: Closure,
                    pending: seq<Symbol>, added: seq<Symbol>, provider: nat)
    requires provider < |members| && pending != [] && Advanced(members, roots, c, next, provider)
    requires forall s :: s in pending ==> Wanted(members, roots, c.selected, |c.selected|, s)
    requires added == Fresh(members[provider].undefined, next.resolved, external)
    ensures forall s :: s in pending[1..] + added ==> Wanted(members, roots, next.selected, |next.selected|, s)
  {
    hide Wanted, DefinedBy;
    TailKeeps(pending);
  }

  lemma SelectKeeps(members: seq<Member>, roots: seq<Symbol>, external: set<Symbol>, c: Closure, pending: seq<Symbol>,
                    symbol: Symbol, provider: nat)
    requires Invariant(members, roots, external, c, pending)
    requires pending != [] && pending[0] == symbol && symbol !in external && symbol !in c.resolved
             && IsFirstProvider(members, provider, symbol)
    ensures var next := Select(c, members, provider, symbol);
            Invariant(members, roots, external, next,
                      pending[1..] + Fresh(members[provider].undefined, next.resolved, external))
  {
    assert symbol in members[provider].defined;
    SelectJustified(members, roots, external, c, pending, symbol, provider);
    hide Wanted, DefinedBy, Justified, IsFirstProvider, Unprovided, Provides, Covered, Fresh;
    var next := Select(c, members, provider, symbol);
    var added := Fresh(members[provider].undefined, next.resolved, external);
    SelectAdvances(members, roots, c, provider, symbol);
    SelectQueue(members, roots, external, c, next, pending, added, provider);
    SelectCovered(members, roots, external, c, next, pending, added, provider);
  }

  lemma TailKeeps(pending: seq<Symbol>)
    requires pending != []
    ensures forall s :: s in pending[1..] ==> s in pending
    ensures forall s :: s in pending && s != pending[0] ==> s in pending[1..]
  {
  }

  lemma SkipKeeps(members: seq<Member>, roots: seq<Symbol>, external: set<Symbol>, c: Closure, pending: seq<Symbol>)
    requires Invariant(members, roots, external, c, pending) && pending != []
    requires pending[0] in external || pending[0] in c.resolved
    ensures Invariant(members, roots, external, c, pending[1..])
  {
    hide Wanted, DefinedBy, Justified;
    TailKeeps(pending);
  }

  lemma UnresolvedKeeps(members: seq<Member>, roots: seq<Symbol>, external: set<Symbol>, c: Closure,
                        pending: seq<Symbol>)
    requires Invariant(members, roots, external, c, pending) && pending != []
    requires pending[0] !in external && Unprovided(members, pending[0])
    ensures Invariant(members, roots, external, c.(unresolved := c.unresolved + {pending[0]}), pending[1..])
  {
    hide Wanted, DefinedBy, Justified, Unprovided;
    TailKeeps(pending);
  }

  /** The rest of the worklist: symbols are served first come, first served, each by its first provider. */
  ghost function Served(members: seq<Member>, roots: seq<Symbol>, external: set<Symbol>, c: Closure,
                        pending: seq<Symbol>): Closure
    requires Invariant(members, roots, external, c, pending)
    decreases BoundOf(members, roots, external, c, pending) - |c.selected|, |pending|
  {
    if pending == [] then c
    else
      var symbol, rest, found := pending[0], pending[1..], ProvidersOf(members, pending[0]);
      FirstOfProviders(members, symbol);
      if symbol in c.resolved || symbol in external then
        SkipKeeps(members, roots, external, c, pending);
        Served(members, roots, external, c, rest)
      else if found == [] then
        UnresolvedKeeps(members, roots, external, c, pending);
        Served(members, roots, external, c.(unresolved := c.unresolved + {symbol}), rest)
      else
        SelectKeeps(members, roots, external, c, pending, symbol, found[0]);
        var next := Select(c, members, found[0], symbol);
        var queue := rest + Fresh(members[found[0]].undefined, next.resolved, external);
        InvariantBound(members, roots, external, next, queue);
        Served(members, roots, external, next, queue)
  }

  ghost function BoundOf(members: seq<Member>, roots: seq<Symbol>, external: set<Symbol>, c: Closure,
                         pending: seq<Symbol>): (n: nat)
    requires Invariant(members, roots, external, c, pending)
    ensures n == |members| && |c.selected| <= n
  {
    InvariantBound(members, roots, external, c, pending);
    |members|
  }

  ghost function ClosureOf(members: seq<Member>, roots: seq<Symbol>, external: set<Symbol>): Closure {
    StartHolds(members, roots, external);
    Served(members, roots, external, Closure([], {}, {}), roots)
  }

  lemma ServedStep(members: seq<Member>, roots: seq<Symbol>, external: set<Symbol>, c: Closure, pending: seq<Symbol>)
    requires Invariant(members, roots, external, c, pending) && pending != []
    ensures var symbol, rest, found := pending[0], pending[1..], ProvidersOf(members, pending[0]);
            if symbol in c.resolved || symbol in external then
              && Invariant(members, roots, external, c, rest)
              && Served(members, roots, external, c, pending) == Served(members, roots, external, c, rest)
            else if found == [] then
              var next := c.(unresolved := c.unresolved + {symbol});
              && Invariant(members, roots, external, next, rest)
              && Served(members, roots, external, c, pending) == Served(members, roots, external, next, rest)
            else
              && found[0] < |members| && IsFirstProvider(members, found[0], symbol)
              && var next := Select(c, members, found[0], symbol);
                 var queue := rest + Fresh(members[found[0]].undefined, next.resolved, external);
              && Invariant(members, roots, external, next, queue) && |next.selected| <= |members|
              && Served(members, roots, external, c, pending) == Served(members, roots, external, next, queue)
  {
    FirstOfProviders(members, pending[0]);
    hide Invariant, Fresh, Unprovided;
    if !(pending[0] in c.resolved || pending[0] in external) {
      var found := ProvidersOf(members, pending[0]);
      if found == [] {
        FirstOfProviders(members, pending[0]);
        UnresolvedKeeps(members, roots, external, c, pending);
      } else {
        SelectKeeps(members, roots, external, c, pending, pending[0], found[0]);
        var next := Select(c, members, found[0], pending[0]);
        InvariantBound(members, roots, external, next,
                       pending[1..] + Fresh(members[found[0]].undefined, next.resolved, external));
      }
    } else {
      SkipKeeps(members, roots, external, c, pending);
    }
  }

  /** The worklist of `generate`. */
  method Close(members: seq<Member>, roots: seq<Symbol>, external: set<Symbol>) returns (c: Closure)
    ensures c == ClosureOf(members, roots, external)
    ensures Justified(members, roots, external, c.selected)
    ensures forall s :: s in c.resolved <==> DefinedBy(members, c.selected, s)
    ensures ClosedUnder(members, roots, external, c)
    ensures UnresolvedExactly(members, roots, external, c)
  {
    var providers := IndexProviders(members);
    c := Closure([], {}, {});
    var pending := roots;
    var picked: set<nat> := {};
    StartHolds(members, roots, external);
    while pending != []
      invariant Invariant(members, roots, external, c, pending)
      invariant |c.selected| <= |members|
      invariant picked == Picked(c.selected)
      invariant Served(members, roots, external, c, pending) == ClosureOf(members, roots, external)
      decreases |members| - |c.selected|, |pending|
    {
      hide Invariant, ProvidersOf, Fresh, Served, ClosureOf;
      ServedStep(members, roots, external, c, pending);
      var symbol := pending[0];
      if symbol in c.resolved || symbol in external {
        pending := pending[1..];
      } else if symbol !in providers {
        c := c.(unresolved := c.unresolved + {symbol});
        pending := pending[1..];
      } else {
        var provider := providers[symbol][0];
        NotYetPicked(members, roots, external, c, pending, provider, symbol);
        if provider !in picked {
          PickedMore(c.selected, Selection(provider, symbol));
          picked := picked + {provider};
          c := Select(c, members, provider, symbol);
          pending := pending[1..] + Fresh(members[provider].undefined, c.resolved, external);
        }
      }
    }
    Finished(members, roots, external, c);
  }

  /** The source's test whether the provider is selected already never succeeds: a selected member's
      symbols are all resolved. */
  lemma NotYetPicked(members: seq<Member>, roots: seq<Symbol>, external: set<Symbol>, c: Closure, pending: seq<Symbol>,
                     provider: nat, s: Symbol)
    requires Invariant(members, roots, external, c, pending) && s !in c.resolved
             && IsFirstProvider(members, provider, s)
    ensures provider !in Picked(c.selected)
  {
    SelectedDefines(members, c.selected, provider, s);
  }

  lemma PickedMore(chosen: seq<Selection>, last: Selection)
    ensures Picked(chosen + [last]) == Picked(chosen) + {last.member}
  {
    var more := chosen + [last];
    assert more[|chosen|] == last;
    assert forall i :: 0 <= i < |chosen| ==> more[i] == chosen[i];
  }

  lemma StartHolds(members: seq<Member>, roots: seq<Symbol>, external: set<Symbol>)
    ensures Invariant(members, roots, external, Closure([], {}, {}), roots)
  {
  }

  lemma InvariantBound(members: seq<Member>, roots: seq<Symbol>, external: set<Symbol>, c: Closure,
                       pending: seq<Symbol>)
    requires Invariant(members, roots, external, c, pending)
    ensures |c.selected| <= |members|
  {
    forall i | 0 <= i < |c.selected|
      ensures c.selected[i].member < |members|
    {
      assert IsFirstProvider(members, c.selected[i].member, c.selected[i].cause);
    }
    SelectedBound(members, c.selected);
  }

  lemma Finished(members: seq<Member>, roots: seq<Symbol>, external: set<Symbol>, c: Closure)
    requires Invariant(members, roots, external, c, [])
    ensures Justified(members, roots, external, c.selected)
    ensures forall s :: s in c.resolved <==> DefinedBy(members, c.selected, s)
    ensures ClosedUnder(members, roots, external, c)
    ensures UnresolvedExactly(members, roots, external, c)
  {
    hide Wanted, Justified;
    forall s | Wanted(members, roots, c.selected, |c.selected|, s) && s !in external && Unprovided(members, s)
      ensures s in c.unresolved
    {
      DefinedProvided(members, c.selected, s);
    }
  }

  // ----- the selection is least -----

  ghost predicate RootOrNeeded(members: seq<Member>, roots: seq<Symbol>, inside: set<nat>, s: Symbol) {
    s in roots || exists q :: q in inside && q < |members| && s in members[q].undefined
  }

  /** A set of members that contains the first provider of everything the roots and its members need. */
  ghost predicate ProviderClosed(members: seq<Member>, roots: seq<Symbol>, external: set<Symbol>, inside: set<nat>) {
    forall s, p :: IsFirstProvider(members, p, s) && s !in external && RootOrNeeded(members, roots, inside, s) ==>
        p in inside
  }

  /** Whatever is justified lies in every provider-closed set of members. */
  lemma {:induction false} SelectionNeeded(members: seq<Member>, roots: seq<Symbol>, external: set<Symbol>,
                                           chosen: seq<Selection>, inside: set<nat>, k: nat)
    requires Justified(members, roots, external, chosen) && ProviderClosed(members, roots, external, inside)
             && k < |chosen|
    ensures chosen[k].member in inside
  {
    var s := chosen[k].cause;
    assert Wanted(members, roots, chosen, k, s);
    if s !in roots {
      var i :| 0 <= i < k && i < |chosen| && chosen[i].member < |members| && s in members[chosen[i].member].undefined;
      SelectionNeeded(members, roots, external, chosen, inside, i);
    }
    assert IsFirstProvider(members, chosen[k].member, s);
  }

  ghost predicate UniqueProviders(members: seq<Member>) {
    forall p, q, s :: Provides(members, p, s) && Provides(members, q, s) ==> p == q
  }

  /** With unique providers the selection is itself provider-closed, hence the least such set. */
  lemma LeastClosed(members: seq<Member>, roots: seq<Symbol>, external: set<Symbol>, c: Closure, inside: set<nat>)
    requires Justified(members, roots, external, c.selected) && ClosedUnder(members, roots, external, c)
    requires UnresolvedExactly(members, roots, external, c)
    ensures ProviderClosed(members, roots, external, inside) ==> Picked(c.selected) <= inside
    ensures UniqueProviders(members) ==> ProviderClosed(members, roots, external, Picked(c.selected))
  {
    if ProviderClosed(members, roots, external, inside) {
      forall i | 0 <= i < |c.selected|
        ensures c.selected[i].member in inside
      {
        SelectionNeeded(members, roots, external, c.selected, inside, i);
      }
    }
    if UniqueProviders(members) {
      forall s, p | IsFirstProvider(members, p, s) && s !in external
          && RootOrNeeded(members, roots, Picked(c.selected), s)
        ensures p in Picked(c.selected)
      {
        PickedWanted(members, roots, c.selected, s);
        assert !Unprovided(members, s);
        var i :| 0 <= i < |c.selected| && Provides(members, c.selected[i].member, s);
        assert c.selected[i].member == p;
      }
    }
  }

  lemma PickedWanted(members: seq<Member>, roots: seq<Symbol>, chosen: seq<Selection>, s: Symbol)
    requires RootOrNeeded(members, roots, Picked(chosen), s)
    ensures Wanted(members, roots, chosen, |chosen|, s)
  {
    if s !in roots {
      var q :| q in Picked(chosen) && q < |members| && s in members[q].undefined;
      var i :| 0 <= i < |chosen| && chosen[i].member == q;
      assert NeededBy(members, chosen, |chosen|, s);
    }
  }

  // ----- the callback roots -----

  /** A callback root must be in the inventory and have a provider. */
  ghost predicate Covers(members: seq<Member>, inventory: set<Symbol>, external: set<Symbol>, s: Symbol) {
    s in inventory && (s in external || !Unprovided(members, s))
  }

  ghost predicate FirstBad(members: seq<Member>, inventory: set<Symbol>, external: set<Symbol>, callbacks: seq<Symbol>,
                           i: nat)
    requires i < |callbacks|
  {
    && !Covers(members, inventory, external, callbacks[i])
    && forall k :: 0 <= k < i ==> Covers(members, inventory, external, callbacks[k])
  }

  /** `generate` up to the end of its worklist: callbacks are checked, then everything is closed. */
  method Generate(members: seq<Member>, roots: seq<Symbol>, callbacks: seq<Symbol>, inventory: set<Symbol>,
                  external: set<Symbol>)
    returns (r: Result<Closure, ClosureError>)
    ensures r.Ok? <==> forall i :: 0 <= i < |callbacks| ==> Covers(members, inventory, external, callbacks[i])
    ensures r.Err? ==> exists i :: 0 <= i < |callbacks| && FirstBad(members, inventory, external, callbacks, i) &&
                         r.error == if callbacks[i] !in inventory then NotInInventory(callbacks[i])
                             else NoProvider(callbacks[i])
    ensures r.Ok? ==> r.value == ClosureOf(members, roots + callbacks, external)
    ensures r.Ok? ==> Justified(members, roots + callbacks, external, r.value.selected)
    ensures r.Ok? ==> ClosedUnder(members, roots + callbacks, external, r.value)
    ensures r.Ok? ==> UnresolvedExactly(members, roots + callbacks, external, r.value)
    ensures r.Ok? ==> forall s :: s in callbacks ==> s !in r.value.unresolved
  {
    hide ProvidersOf, Justified, ClosedUnder, Wanted, ClosureOf;
    var providers := IndexProviders(members);
    for i := 0 to |callbacks|
      invariant forall k :: 0 <= k < i ==> Covers(members, inventory, external, callbacks[k])
    {
      FirstOfProviders(members, callbacks[i]);
      assert FirstBad(members, inventory, external, callbacks, i) <==>
          !Covers(members, inventory, external, callbacks[i]);
      if callbacks[i] !in inventory { return Err(NotInInventory(callbacks[i])); }
      if callbacks[i] !in providers && callbacks[i] !in external { return Err(NoProvider(callbacks[i])); }
    }
    var c := Close(members, roots + callbacks, external);
    return Ok(c);
  }
}

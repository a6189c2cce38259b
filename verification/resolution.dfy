/** Resolution of one permission node for one player against the platform's
    permission backend (`BukkitPermissionProfile.hasPermission`).

    The backend is abstract: `isSet(s)` says whether node `s` is explicitly
    configured, `has(s)` is its value (the platform default when unset). Each
    answer records the backend queries made to reach it, in order, so that
    "no query" and "only the literal node is queried" can be stated. */
module Resolution {
  import opened Wrappers
  import opened Nodes
  import opened Chain

  /** The permission-relevant view of a connected platform player. */
  datatype Player = Player(isSet: string -> bool, has: string -> bool)

  /** One call into the backend. */
  datatype Query = IsSetQuery(node: string) | HasQuery(node: string)

  /** A decision together with the backend queries made to reach it. */
  datatype Answer = Answer(granted: bool, queries: seq<Query>)

  /** The handler splits `node` only past the expiry check and the fast
      path, and only when it has a separator; it must then have no empty
      segment. */
  predicate Admissible(reference: Option<Player>, node: string)
  {
    reference.Some? && !reference.value.has(node) && Separator in node ==> WellFormed(node)
  }

  /** One iteration of the walk over the chain: an explicit setting of `s`
      overwrites the running decision, an unset `s` leaves it alone. The
      queries follow the two tests of the loop body, each of which asks
      whether `s` is set before it asks for its value. */
  function Step(p: Player, s: string, decision: bool): (r: Answer)
    ensures r.granted == if p.isSet(s) then p.has(s) else decision
    ensures |r.queries| >= 2 && r.queries[0] == IsSetQuery(s)
    ensures forall q :: q in r.queries ==> q.node == s
  {
    if p.isSet(s) && p.has(s) then
      Answer(true, [IsSetQuery(s), HasQuery(s)])
    else if p.isSet(s) && !p.has(s) then
      Answer(false, [IsSetQuery(s), HasQuery(s), IsSetQuery(s), HasQuery(s)])
    else
      Answer(decision, [IsSetQuery(s), IsSetQuery(s)])
  }

  /** The walk over `chain`, starting from `decision`. */
  function Walk(p: Player, chain: seq<string>, decision: bool): (r: Answer)
    ensures forall q :: q in r.queries ==> q.node in chain
    ensures forall s :: s in chain ==> IsSetQuery(s) in r.queries
    decreases |chain|
  {
    if chain == [] then Answer(decision, [])
    else
      var step := Step(p, chain[0], decision);
      var rest := Walk(p, chain[1..], step.granted);
      Answer(rest.granted, step.queries + rest.queries)
  }

  /** Position `i` holds the last explicitly set entry of `chain`. */
  ghost predicate LastSetAt(p: Player, chain: seq<string>, i: int)
  {
    && 0 <= i < |chain|
    && p.isSet(chain[i])
    && forall j :: i < j < |chain| ==> !p.isSet(chain[j])
  }

  /** No entry of `chain` is explicitly set. */
  ghost predicate NoneSet(p: Player, chain: seq<string>)
  {
    forall j :: 0 <= j < |chain| ==> !p.isSet(chain[j])
  }

  /** The walk ends with the value of the last explicitly set entry, or with
      its starting decision when no entry is set: later (more general)
      settings overwrite earlier (more specific) ones. */
  lemma {:induction false} WalkLastSetWins(p: Player, chain: seq<string>, decision: bool)
    ensures NoneSet(p, chain) ==> Walk(p, chain, decision).granted == decision
    ensures forall i :: LastSetAt(p, chain, i) ==> Walk(p, chain, decision).granted == p.has(chain[i])
    decreases |chain|
  {
    if chain != [] {
      var tail := chain[1..];
      var d := Step(p, chain[0], decision).granted;
      WalkLastSetWins(p, tail, d);
      assert Walk(p, chain, decision).granted == Walk(p, tail, d).granted;
      forall i | LastSetAt(p, chain, i)
        ensures Walk(p, chain, decision).granted == p.has(chain[i])
      {
        if i == 0 {
          assert NoneSet(p, tail) by {
            forall j | 0 <= j < |tail| ensures !p.isSet(tail[j]) {
              assert tail[j] == chain[j + 1];
            }
          }
        } else {
          assert LastSetAt(p, tail, i - 1) by {
            forall j | i - 1 < j < |tail| ensures !p.isSet(tail[j]) {
              assert tail[j] == chain[j + 1];
            }
          }
        }
      }
      if NoneSet(p, chain) {
        assert NoneSet(p, tail) by {
          forall j | 0 <= j < |tail| ensures !p.isSet(tail[j]) {
            assert tail[j] == chain[j + 1];
          }
        }
      }
    }
  }

  /** `BukkitPermissionProfile.hasPermission` for the player behind
      `reference` (`None` once the player is gone). The world is accepted and
      not consulted. */
  function HasPermission(reference: Option<Player>, world: Option<string>, node: string): (r: Answer)
    requires Admissible(reference, node)
    ensures reference.None? ==> !r.granted && r.queries == []
    ensures reference.Some? ==> |r.queries| >= 1 && r.queries[0] == HasQuery(node)
    ensures reference.Some? && reference.value.has(node) ==> r == Answer(true, [HasQuery(node)])
    ensures reference.Some? && Separator !in node ==> r == Answer(reference.value.has(node), [HasQuery(node)])
    ensures reference.Some? && Separator in node ==>
      forall q :: q in r.queries ==> q.node == node || q.node in BuildChain(Split(node))
  {
    match reference
    case None => Answer(false, [])
    case Some(p) =>
      if p.has(node) then Answer(true, [HasQuery(node)])
      else if Separator !in node then Answer(false, [HasQuery(node)])
      else
        var walk := Walk(p, BuildChain(Split(node)), false);
        Answer(walk.granted, [HasQuery(node)] + walk.queries)
  }

  /** Past the fast path, a node with a separator is decided by the last
      explicitly set entry of its chain, and denied when none is set. */
  lemma ChainDecides(p: Player, world: Option<string>, node: string)
    requires Separator in node && WellFormed(node)
    requires !p.has(node)
    ensures var chain := BuildChain(Split(node));
      && (NoneSet(p, chain) ==> !HasPermission(Some(p), world, node).granted)
      && forall i :: LastSetAt(p, chain, i) ==> HasPermission(Some(p), world, node).granted == p.has(chain[i])
  {
    WalkLastSetWins(p, BuildChain(Split(node)), false);
  }

  /** Past the fast path, every candidate of the chain is asked whether it is
      set: the walk never stops early. */
  lemma WholeChainConsulted(p: Player, world: Option<string>, node: string)
    requires Separator in node && WellFormed(node)
    requires !p.has(node)
    ensures forall s :: s in BuildChain(Split(node)) ==> IsSetQuery(s) in HasPermission(Some(p), world, node).queries
  {
  }

  /** The player of the worked example: `a.b.*` is granted, `a.*` is denied,
      nothing else is set and every unset node defaults to denied. */
  function ExamplePlayer(): (p: Player)
  {
    Player(s => s == "a.b.*" || s == "a.*", s => s == "a.b.*")
  }

  /** For the example player, the walk over the chain of any three-segment
      node under `a` ends denied: `a.*` is the last entry set, and it is
      denied. */
  lemma ExampleWalkDenies(parts: seq<string>)
    requires |parts| == 3 && parts[0] == "a"
    ensures !Walk(ExamplePlayer(), BuildChain(parts), false).granted
  {
    var p := ExamplePlayer();
    var chain := BuildChain(parts);
    assert chain[2] == "a" + ".*" == "a.*";
    assert chain[3] == "*";
    assert LastSetAt(p, chain, 2);
    WalkLastSetWins(p, chain, false);
  }

  /** For the example player, every well-formed three-segment node under
      `a` that is not granted literally is refused. */
  lemma ExampleDenies(node: string, parts: seq<string>)
    requires |parts| == 3 && parts[0] == "a" && NoEmptySegments(parts)
    requires forall i :: 0 <= i < |parts| ==> Separator !in parts[i]
    requires node == Join(parts)
    requires !ExamplePlayer().has(node)
    ensures WellFormed(node)
    ensures !HasPermission(Some(ExamplePlayer()), None, node).granted
  {
    SplitJoin(parts);
    ExampleWalkDenies(parts);
  }

  /** The general deny on `a.*` overrides the more specific grant on `a.b.*`:
      `a.b.c` is refused. */
  lemma GeneralDenyOverridesSpecificGrant()
    ensures !HasPermission(Some(ExamplePlayer()), None, "a.b.c").granted
  {
    var parts := ["a", "b", "c"];
    assert Join(parts) == "a.b.c" by {
      assert JoinUpTo(parts, 2) == "a.b";
    }
    ExampleDenies("a.b.c", parts);
  }
}

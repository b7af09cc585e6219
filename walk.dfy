/**
 * The walk both type-to-graph serialisers share (src/serialize.rs and
 * src/session/serialize.rs): a depth-first walk over session types that
 * gives each type id met for the first time the next state, records it in a
 * history map, and gives each arm of a new type one edge. The bookkeeping
 * here is about type ids, arms and edge indices only; what a state or an
 * edge holds belongs to each serialiser.
 */
module SerializeWalk {
  import opened Wrappers
  import opened SessionTypes

  /** `p` names an arm (type id, arm index) of a type that has a state in `h`. */
  ghost predicate Chosen(defs: map<nat, Session>, h: map<nat, nat>, p: (nat, nat)) {
    p.0 in h && p.0 in defs && p.1 < |ChoicesOf(defs[p.0])|
  }

  /** The arm `p` names. */
  ghost function Arm(defs: map<nat, Session>, p: (nat, nat)): Choice
    requires p.0 in defs && p.1 < |ChoicesOf(defs[p.0])|
  {
    ChoicesOf(defs[p.0])[p.1]
  }

  /** The arm's continuation has a state too. */
  ghost predicate Joined(defs: map<nat, Session>, h: map<nat, nat>, p: (nat, nat)) {
    Chosen(defs, h, p) && Arm(defs, p).next in h
  }

  /** `owner` is the inverse of the history `h`: the type id behind each state. */
  ghost predicate OwnerInv(h: map<nat, nat>, owner: seq<nat>) {
    && (forall id :: id in h ==> h[id] < |owner| && owner[h[id]] == id)
    && (forall s :: 0 <= s < |owner| ==> owner[s] in h && h[owner[s]] == s)
  }

  /**
   * `made` lists the arm behind each edge, in edge order, and `edgeOf` is
   * its inverse: the edge of each arm that has one.
   */
  ghost predicate ArmsInv(defs: map<nat, Session>, h: map<nat, nat>, made: seq<(nat, nat)>, edgeOf: map<(nat, nat), nat>) {
    && (forall i :: 0 <= i < |made| ==> Joined(defs, h, made[i]))
    && (forall i :: 0 <= i < |made| ==> made[i] in edgeOf && edgeOf[made[i]] == i)
    && (forall p :: p in edgeOf ==> edgeOf[p] < |made| && made[edgeOf[p]] == p)
  }

  /** A history with an inverse stays so when a new type id gets the next state. */
  lemma GrowOwner(h: map<nat, nat>, owner: seq<nat>, id: nat, h2: map<nat, nat>, owner2: seq<nat>)
    requires id !in h && h2 == h[id := |owner|] && owner2 == owner + [id]
    requires OwnerInv(h, owner)
    ensures OwnerInv(h2, owner2)
  {
    forall s | 0 <= s < |owner2|
      ensures owner2[s] in h2 && h2[owner2[s]] == s
    {
      if s < |owner| {
        assert owner2[s] == owner[s];
      }
    }
    forall x | x in h2
      ensures h2[x] < |owner2| && owner2[h2[x]] == x
    {
      if x != id {
        assert owner2[h[x]] == owner[h[x]];
      }
    }
  }

  /** A history with an inverse never gives two type ids the same state. */
  lemma OwnerInjective(h: map<nat, nat>, owner: seq<nat>)
    requires OwnerInv(h, owner)
    ensures Injective(h)
  {
    forall a, b | a in h && b in h && h[a] == h[b]
      ensures a == b
    {
      assert owner[h[a]] == a && owner[h[b]] == b;
    }
  }

  /** Giving the arm `p`, which has no edge yet, the next edge keeps `made` and `edgeOf` inverse. */
  lemma ArmsAttach(defs: map<nat, Session>, h: map<nat, nat>, made: seq<(nat, nat)>, edgeOf: map<(nat, nat), nat>, p: (nat, nat))
    requires ArmsInv(defs, h, made, edgeOf) && Joined(defs, h, p) && p !in edgeOf
    ensures ArmsInv(defs, h, made + [p], edgeOf[p := |made|])
  {
    var made2, edgeOf2 := made + [p], edgeOf[p := |made|];
    forall i | 0 <= i < |made2|
      ensures Joined(defs, h, made2[i]) && made2[i] in edgeOf2 && edgeOf2[made2[i]] == i
    {
      if i < |made| {
        assert made2[i] == made[i];
      }
    }
  }

  /** Arms keep their edges, and their ends keep their states, when the history grows. */
  lemma ArmsGrow(defs: map<nat, Session>, h: map<nat, nat>, h2: map<nat, nat>, made: seq<(nat, nat)>, edgeOf: map<(nat, nat), nat>)
    requires ArmsInv(defs, h, made, edgeOf) && Grows(h, h2)
    ensures ArmsInv(defs, h2, made, edgeOf)
    ensures forall i :: 0 <= i < |made| ==>
      h2[made[i].0] == h[made[i].0] && h2[Arm(defs, made[i]).next] == h[Arm(defs, made[i]).next]
  {
    forall i | 0 <= i < |made|
      ensures Joined(defs, h2, made[i])
      ensures h2[made[i].0] == h[made[i].0] && h2[Arm(defs, made[i]).next] == h[Arm(defs, made[i]).next]
    {
      assert Joined(defs, h, made[i]);
    }
  }

  /** Only arms of visited types have edges, so a type new to the history has none. */
  lemma ArmsOfVisited(defs: map<nat, Session>, h: map<nat, nat>, made: seq<(nat, nat)>, edgeOf: map<(nat, nat), nat>, id: nat)
    requires ArmsInv(defs, h, made, edgeOf) && id !in h
    ensures forall p :: p in edgeOf ==> p.0 != id
  {
    forall p | p in edgeOf
      ensures p.0 != id
    {
      assert Joined(defs, h, made[edgeOf[p]]);
    }
  }

  /**
   * Once every arm of every visited type has an edge, the arms behind the
   * edges are exactly those arms, each once, and every continuation of a
   * visited type is visited.
   */
  lemma ArmsExact(defs: map<nat, Session>, h: map<nat, nat>, made: seq<(nat, nat)>, edgeOf: map<(nat, nat), nat>)
    requires ArmsInv(defs, h, made, edgeOf)
    requires forall x, k :: x in h && x in defs && 0 <= k < |ChoicesOf(defs[x])| ==> (x, k) in edgeOf
    ensures forall i, j :: 0 <= i < j < |made| ==> made[i] != made[j]
    ensures forall p :: p in made <==> p.0 in h && p.0 in defs && p.1 < |ChoicesOf(defs[p.0])|
    ensures forall id, c :: id in h && id in defs && c in ChoicesOf(defs[id]) ==> c.next in h
  {
    forall p | p in made
      ensures p in edgeOf
    {
      var i :| 0 <= i < |made| && made[i] == p;
    }
    forall p | p in edgeOf
      ensures p in made
    {
      assert made[edgeOf[p]] == p;
    }
    forall i, j | 0 <= i < j < |made|
      ensures made[i] != made[j]
    {
      assert edgeOf[made[i]] == i && edgeOf[made[j]] == j;
    }
    forall id, c | id in h && id in defs && c in ChoicesOf(defs[id])
      ensures c.next in h
    {
      var k :| 0 <= k < |ChoicesOf(defs[id])| && ChoicesOf(defs[id])[k] == c;
      assert Joined(defs, h, made[edgeOf[(id, k)]]);
    }
  }

  /**
   * What serialising one type does to the history and to the arms that have
   * edges, from (`h0`, `m0`) to (`h`, `m`): the history only grows; arms
   * keep their edges; the only arms with new edges are `arm`, the one that
   * was pending, and arms of types new to the history; and every arm of a
   * type new to the history has its edge.
   */
  ghost predicate Serialized(defs: map<nat, Session>, h0: map<nat, nat>, m0: map<(nat, nat), nat>,
                             h: map<nat, nat>, m: map<(nat, nat), nat>, arm: Option<(nat, nat)>) {
    && Grows(h0, h)
    && (forall p :: p in m0 ==> p in m)
    && (arm.Some? ==> arm.value in m)
    && (forall p :: p in m && p !in m0 ==> Some(p) == arm || p.0 !in h0)
    && (forall x, k :: x in h && x !in h0 && x in defs && 0 <= k < |ChoicesOf(defs[x])| ==> (x, k) in m)
  }

  /**
   * What expanding the first `n` arms of `id` does: as `Serialized`, with
   * those arms, and only those arms of `id`, gaining edges.
   */
  ghost predicate Expanded(defs: map<nat, Session>, h0: map<nat, nat>, m0: map<(nat, nat), nat>,
                           h: map<nat, nat>, m: map<(nat, nat), nat>, id: nat, n: nat) {
    && Grows(h0, h)
    && (forall p :: p in m0 ==> p in m)
    && (forall j :: 0 <= j < n ==> (id, j) in m)
    && (forall p :: p in m && p !in m0 ==> (p.0 == id && p.1 < n) || p.0 !in h0)
    && (forall x, k :: x in h && x !in h0 && x in defs && 0 <= k < |ChoicesOf(defs[x])| ==> (x, k) in m)
  }

  /** Before the next arm is expanded it has no edge. */
  lemma ExpandedFresh(defs: map<nat, Session>, h0: map<nat, nat>, m0: map<(nat, nat), nat>,
                      h: map<nat, nat>, m: map<(nat, nat), nat>, id: nat, n: nat)
    requires Expanded(defs, h0, m0, h, m, id, n) && id in h0 && (forall p :: p in m0 ==> p.0 != id)
    ensures (id, n) !in m
  {
  }

  /** Serialising the `n`-th arm extends an expansion of `n` arms to `n + 1`. */
  lemma ExpandedStep(defs: map<nat, Session>, h0: map<nat, nat>, m0: map<(nat, nat), nat>, h1: map<nat, nat>, m1: map<(nat, nat), nat>,
                     h2: map<nat, nat>, m2: map<(nat, nat), nat>, id: nat, n: nat)
    requires Expanded(defs, h0, m0, h1, m1, id, n) && Serialized(defs, h1, m1, h2, m2, Some((id, n))) && id in h0
    ensures Expanded(defs, h0, m0, h2, m2, id, n + 1)
  {
    forall x, k | x in h2 && x !in h0 && x in defs && 0 <= k < |ChoicesOf(defs[x])|
      ensures (x, k) in m2
    {
      if x in h1 {
        assert (x, k) in m1;
      }
    }
    forall j | 0 <= j < n + 1
      ensures (id, j) in m2
    {
      if j < n {
        assert (id, j) in m1;
      }
    }
    forall p | p in m2 && p !in m0
      ensures (p.0 == id && p.1 < n + 1) || p.0 !in h0
    {
      if p in m1 {
        assert (p.0 == id && p.1 < n) || p.0 !in h0;
      }
    }
  }

  /**
   * A new type's state followed by the expansion of all its arms is the
   * serialisation of the type.
   */
  lemma ExpandedSerialized(defs: map<nat, Session>, h0: map<nat, nat>, m0: map<(nat, nat), nat>, h1: map<nat, nat>, m1: map<(nat, nat), nat>,
                           h2: map<nat, nat>, m2: map<(nat, nat), nat>, id: nat, arm: Option<(nat, nat)>)
    requires id in defs && id !in h0 && h1 == h0[id := |h0|]
    requires forall p :: p in m1 <==> p in m0 || Some(p) == arm
    requires arm.Some? ==> arm.value.0 in h0
    requires Expanded(defs, h1, m1, h2, m2, id, |ChoicesOf(defs[id])|)
    ensures Serialized(defs, h0, m0, h2, m2, arm)
  {
    forall x, k | x in h2 && x !in h0 && x in defs && 0 <= k < |ChoicesOf(defs[x])|
      ensures (x, k) in m2
    {
      if x == id {
        assert (id, k) in m2;
      }
    }
    forall p | p in m2 && p !in m0
      ensures Some(p) == arm || p.0 !in h0
    {
      if p !in m1 {
        assert (p.0 == id && p.1 < |ChoicesOf(defs[id])|) || p.0 !in h1;
      }
    }
  }
}

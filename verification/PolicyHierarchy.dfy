/** Policy hierarchy: the restrictive merge folded over scopes, and the validator that checks a child
    against its parent (plugins/policy-engine/src/hierarchy/resolver.ts and validator.ts). */
module PolicyHierarchy {
  import opened Common
  import opened Levels
  import opened Picking
  import opened PolicyParser

  // ----- Merging -----

  /** The items, in order, that are also allowed. */
  function FilterIn(items: seq<string>, allowed: seq<string>): seq<string> {
    if items == [] then []
    else (if items[0] in allowed then [items[0]] else []) + FilterIn(items[1..], allowed)
  }

  function MergeValue(parent: Value, child: Value): Value {
    if parent.List? && child.List? then List(FilterIn(child.items, parent.items))
    else if parent.Flag? && child.Flag? then Flag(parent.b && child.b)
    else if parent.Limit? && child.Limit? then Limit(if child.n < parent.n then child.n else parent.n)
    else child
  }

  function MergeAt(parent: Policy, child: Policy, k: string): Value
    requires k in parent || k in child
  {
    if k !in child then parent[k]
    else if k !in parent then child[k]
    else MergeValue(parent[k], child[k])
  }

  function Merge(parent: Policy, child: Policy): Policy {
    map k | k in parent.Keys + child.Keys :: MergeAt(parent, child, k)
  }

  method MergeRestrictive(parent: Policy, child: Policy) returns (result: Policy)
    ensures result == Merge(parent, child)
  {
    result := parent;
    var left := child.Keys;
    while left != {}
      invariant left <= child.Keys
      invariant result.Keys == parent.Keys + (child.Keys - left)
      invariant forall k :: k in result ==> result[k] == if k in left then parent[k] else MergeAt(parent, child, k)
      decreases left
    {
      var key :| key in left;
      left := left - {key};
      var childValue := child[key];
      if key !in parent {
        result := result[key := childValue];
        continue;
      }
      var parentValue := parent[key];
      if parentValue.List? && childValue.List? {
        result := result[key := List(FilterIn(childValue.items, parentValue.items))];
      } else if parentValue.Flag? && childValue.Flag? {
        result := result[key := Flag(parentValue.b && childValue.b)];
      } else if parentValue.Limit? && childValue.Limit? {
        result := result[key := Limit(if parentValue.n < childValue.n then parentValue.n else childValue.n)];
      } else {
        result := result[key := childValue];
      }
    }
  }

  /** The fold of the merge over layers, from the empty policy. */
  function Effective(layers: seq<Policy>): Policy {
    if layers == [] then map[] else Merge(Effective(layers[..|layers|-1]), layers[|layers|-1])
  }

  // ----- Resolving -----

  datatype Scope = Enterprise | Org | Team | User

  const POLICY_SCOPE_HIERARCHY := [Enterprise, Org, Team, User]

  datatype StoredPolicy = StoredPolicy(id: string, content: string, active: bool)

  datatype Resolved = Resolved(effectivePolicy: Policy, hierarchy: seq<(Scope, Option<string>)>)

  type Fetch = (Scope, string, string) -> Option<StoredPolicy>

  /** The ids of the scopes to resolve for; an empty id counts as absent. */
  type ScopeChain = Scope -> Option<string>

  /** The active policy of a scope, if the chain names the scope and the store has one. */
  function ActivePolicy(domain: string, chain: ScopeChain, fetch: Fetch, scope: Scope): Option<StoredPolicy> {
    if chain(scope).None? || chain(scope).value == "" then None
    else
      var p := fetch(scope, chain(scope).value, domain);
      if p.None? || !p.value.active then None else p
  }

  function PolicyId(p: Option<StoredPolicy>): Option<string> {
    if p.None? then None else Some(p.value.id)
  }

  function HierarchyUpTo(domain: string, chain: ScopeChain, fetch: Fetch, n: nat): seq<(Scope, Option<string>)>
    requires n <= 4
  {
    if n == 0 then []
    else
      var scope := POLICY_SCOPE_HIERARCHY[n-1];
      HierarchyUpTo(domain, chain, fetch, n-1) + [(scope, PolicyId(ActivePolicy(domain, chain, fetch, scope)))]
  }

  /** The parsed active policies of the first `n` scopes, highest authority first. */
  function Layers(domain: string, chain: ScopeChain, fetch: Fetch, n: nat): seq<Policy>
    requires n <= 4
  {
    if n == 0 then []
    else
      var p := ActivePolicy(domain, chain, fetch, POLICY_SCOPE_HIERARCHY[n-1]);
      Layers(domain, chain, fetch, n-1) + if p.Some? then [Parse(p.value.content)] else []
  }

  /** The chain names the scope by a non-empty id, under which the store has a policy, and it is active. */
  predicate InForce(domain: string, chain: ScopeChain, fetch: Fetch, scope: Scope) {
    && chain(scope).Some? && chain(scope).value != ""
    && fetch(scope, chain(scope).value, domain).Some?
    && fetch(scope, chain(scope).value, domain).value.active
  }

  function PolicyOf(domain: string, chain: ScopeChain, fetch: Fetch, scope: Scope): StoredPolicy
    requires InForce(domain, chain, fetch, scope)
  {
    fetch(scope, chain(scope).value, domain).value
  }

  /** From the highest authority down. */
  function ScopeAt(k: nat): Scope
    requires k < 4
  {
    if k == 0 then Enterprise else if k == 1 then Org else if k == 2 then Team else User
  }

  lemma ScopesInOrder(k: nat)
    requires k < 4
    ensures POLICY_SCOPE_HIERARCHY[k] == ScopeAt(k)
  {
  }

  /** `at` are the scopes in force, and `layers` the contents of their policies, from the enterprise down. */
  ghost predicate LayersInForce(domain: string, chain: ScopeChain, fetch: Fetch, n: nat, layers: seq<Policy>, at: seq<nat>) {
    && n <= 4 && Positions(at, n) && |layers| == |at|
    && (forall k: nat :: k < n ==> (k in at <==> InForce(domain, chain, fetch, ScopeAt(k))))
    && (forall i :: 0 <= i < |at| ==>
          var scope := ScopeAt(at[i]);
          && InForce(domain, chain, fetch, scope)
          && layers[i] == Parse(PolicyOf(domain, chain, fetch, scope).content))
  }

  lemma NextInForce(domain: string, chain: ScopeChain, fetch: Fetch, n: nat, layers: seq<Policy>, at: seq<nat>, layer: Policy)
    requires n < 4 && LayersInForce(domain, chain, fetch, n, layers, at) && InForce(domain, chain, fetch, ScopeAt(n))
    requires layer == Parse(PolicyOf(domain, chain, fetch, ScopeAt(n)).content)
    ensures LayersInForce(domain, chain, fetch, n + 1, layers + [layer], at + [n])
  {
    OneMorePosition(at, n);
  }

  lemma NextNotInForce(domain: string, chain: ScopeChain, fetch: Fetch, n: nat, layers: seq<Policy>, at: seq<nat>)
    requires n < 4 && LayersInForce(domain, chain, fetch, n, layers, at) && !InForce(domain, chain, fetch, ScopeAt(n))
    ensures LayersInForce(domain, chain, fetch, n + 1, layers, at)
  {
    OneMorePosition(at, n);
  }

  lemma LayersNext(domain: string, chain: ScopeChain, fetch: Fetch, n: nat)
    requires n < 4
    ensures var scope, layers := ScopeAt(n), Layers(domain, chain, fetch, n);
            Layers(domain, chain, fetch, n + 1)
              == if InForce(domain, chain, fetch, scope) then layers + [Parse(PolicyOf(domain, chain, fetch, scope).content)]
                 else layers
  {
    ScopesInOrder(n);
  }

  lemma {:induction false} LayersAreInForce(domain: string, chain: ScopeChain, fetch: Fetch, n: nat) returns (at: seq<nat>)
    requires n <= 4
    ensures LayersInForce(domain, chain, fetch, n, Layers(domain, chain, fetch, n), at)
  {
    if n == 0 {
      at := [];
    } else {
      at := LayersAreInForce(domain, chain, fetch, n - 1);
      LayersNext(domain, chain, fetch, n - 1);
      var layers, scope := Layers(domain, chain, fetch, n - 1), ScopeAt(n - 1);
      if InForce(domain, chain, fetch, scope) {
        NextInForce(domain, chain, fetch, n - 1, layers, at, Parse(PolicyOf(domain, chain, fetch, scope).content));
        at := at + [n - 1];
      } else {
        NextNotInForce(domain, chain, fetch, n - 1, layers, at);
      }
    }
  }

  /** The report names each scope, with the id of its policy if it is in force. */
  ghost predicate Reports(domain: string, chain: ScopeChain, fetch: Fetch, hierarchy: seq<(Scope, Option<string>)>) {
    && |hierarchy| == 4
    && forall k: nat :: k < 4 ==>
         var scope := ScopeAt(k);
         && hierarchy[k].0 == scope
         && hierarchy[k].1 == if InForce(domain, chain, fetch, scope) then Some(PolicyOf(domain, chain, fetch, scope).id) else None
  }

  lemma {:induction false} HierarchyAt(domain: string, chain: ScopeChain, fetch: Fetch, n: nat, k: nat)
    requires k < n <= 4
    ensures |HierarchyUpTo(domain, chain, fetch, n)| == n
    ensures var scope := ScopeAt(k);
            && HierarchyUpTo(domain, chain, fetch, n)[k].0 == scope
            && HierarchyUpTo(domain, chain, fetch, n)[k].1
               == if InForce(domain, chain, fetch, scope) then Some(PolicyOf(domain, chain, fetch, scope).id) else None
  {
    ScopesInOrder(n - 1);
    if k < n - 1 {
      HierarchyAt(domain, chain, fetch, n - 1, k);
    } else if n > 1 {
      HierarchyAt(domain, chain, fetch, n - 1, 0);
    }
  }

  lemma HierarchyReports(domain: string, chain: ScopeChain, fetch: Fetch)
    ensures Reports(domain, chain, fetch, HierarchyUpTo(domain, chain, fetch, 4))
  {
    forall k: nat | k < 4
      ensures |HierarchyUpTo(domain, chain, fetch, 4)| == 4
      ensures var scope := ScopeAt(k);
              && HierarchyUpTo(domain, chain, fetch, 4)[k].0 == scope
              && HierarchyUpTo(domain, chain, fetch, 4)[k].1
                 == if InForce(domain, chain, fetch, scope) then Some(PolicyOf(domain, chain, fetch, scope).id) else None
    {
      HierarchyAt(domain, chain, fetch, 4, k);
    }
    HierarchyAt(domain, chain, fetch, 4, 0);
  }

  /** Two stores that agree on what is in force resolve alike, whatever inactive policies they hold. */
  lemma {:induction false} OnlyActiveCounts(domain: string, chain: ScopeChain, fetch: Fetch, other: Fetch, n: nat)
    requires n <= 4
    requires forall scope :: InForce(domain, chain, fetch, scope) <==> InForce(domain, chain, other, scope)
    requires forall scope :: InForce(domain, chain, fetch, scope) ==>
               PolicyOf(domain, chain, fetch, scope) == PolicyOf(domain, chain, other, scope)
    ensures Layers(domain, chain, fetch, n) == Layers(domain, chain, other, n)
    ensures HierarchyUpTo(domain, chain, fetch, n) == HierarchyUpTo(domain, chain, other, n)
  {
    if n > 0 {
      OnlyActiveCounts(domain, chain, fetch, other, n - 1);
      var scope := POLICY_SCOPE_HIERARCHY[n-1];
      assert InForce(domain, chain, fetch, scope) <==> ActivePolicy(domain, chain, fetch, scope).Some?;
      assert InForce(domain, chain, other, scope) <==> ActivePolicy(domain, chain, other, scope).Some?;
    }
  }

  /** Resolving is the plain fold of the merge over the layers in force, which it reports. */
  method Resolve(domain: string, chain: ScopeChain, fetch: Fetch) returns (r: Resolved)
    ensures exists layers, at :: LayersInForce(domain, chain, fetch, 4, layers, at) && r.effectivePolicy == Effective(layers)
    ensures Reports(domain, chain, fetch, r.hierarchy)
    ensures r.effectivePolicy == Effective(Layers(domain, chain, fetch, 4))
    ensures r.hierarchy == HierarchyUpTo(domain, chain, fetch, 4)
  {
    var hierarchy: seq<(Scope, Option<string>)>, effectivePolicy: Policy := [], map[];
    for i := 0 to |POLICY_SCOPE_HIERARCHY|
      invariant hierarchy == HierarchyUpTo(domain, chain, fetch, i)
      invariant effectivePolicy == Effective(Layers(domain, chain, fetch, i))
    {
      var scope := POLICY_SCOPE_HIERARCHY[i];
      OneMoreScope(domain, chain, fetch, i);
      if chain(scope).None? || chain(scope).value == "" {
        hierarchy := hierarchy + [(scope, None)];
        continue;
      }
      var policy := fetch(scope, chain(scope).value, domain);
      if policy.None? || !policy.value.active {
        hierarchy := hierarchy + [(scope, None)];
        continue;
      }
      hierarchy := hierarchy + [(scope, Some(policy.value.id))];
      var parsed := ParsePolicyContent(policy.value.content);
      if scope == Enterprise {
        effectivePolicy := parsed;
      } else {
        effectivePolicy := MergeRestrictive(effectivePolicy, parsed);
      }
    }
    r := Resolved(effectivePolicy, hierarchy);
    ghost var at := LayersAreInForce(domain, chain, fetch, 4);
    HierarchyReports(domain, chain, fetch);
  }

  lemma OneMoreScope(domain: string, chain: ScopeChain, fetch: Fetch, i: nat)
    requires i < 4
    ensures POLICY_SCOPE_HIERARCHY[i] == Enterprise <==> i == 0
    ensures var p, before, after := ActivePolicy(domain, chain, fetch, POLICY_SCOPE_HIERARCHY[i]),
                                    Effective(Layers(domain, chain, fetch, i)),
                                    Effective(Layers(domain, chain, fetch, i + 1));
            && (p.None? ==> after == before)
            && (p.Some? ==> after == Merge(before, Parse(p.value.content)))
            && (p.Some? && i == 0 ==> after == Parse(p.value.content))
  {
    var p, layers := ActivePolicy(domain, chain, fetch, POLICY_SCOPE_HIERARCHY[i]), Layers(domain, chain, fetch, i);
    if p.None? {
      assert Layers(domain, chain, fetch, i + 1) == layers + [] == layers;
    } else {
      EffectiveSnoc(layers, Parse(p.value.content));
      assert [] + [Parse(p.value.content)] == [Parse(p.value.content)];
    }
  }

  lemma EffectiveSnoc(layers: seq<Policy>, layer: Policy)
    ensures Effective(layers + [layer]) == Merge(Effective(layers), layer)
    ensures Effective([layer]) == layer
  {
    assert (layers + [layer])[..|layers|] == layers;
    assert [layer][..0] == [];
  }

  // ----- The effective policy is the meet of its layers -----

  datatype Kind = FlagKind | LimitKind | TextKind | ListKind

  function KindOf(v: Value): Kind {
    match v
    case Flag(_) => FlagKind
    case Limit(_) => LimitKind
    case Text(_) => TextKind
    case List(_) => ListKind
  }

  /** Every layer that defines `k` gives it a value of this kind. */
  ghost predicate OneKind(layers: seq<Policy>, k: string, kind: Kind) {
    forall l: Policy :: l in layers && k in l ==> KindOf(l[k]) == kind
  }

  ghost predicate Defined(layers: seq<Policy>, k: string) {
    exists l: Policy :: l in layers && k in l
  }

  /** Peeling off the last layer. */
  lemma LastLayer(layers: seq<Policy>, k: string)
    requires layers != []
    ensures var front, last := layers[..|layers|-1], layers[|layers|-1];
            && layers == front + [last]
            && (Defined(layers, k) <==> Defined(front, k) || k in last)
  {
    var front, last := layers[..|layers|-1], layers[|layers|-1];
    assert layers == front + [last];
    assert last in layers;
  }

  lemma {:induction false} EffectiveKeys(layers: seq<Policy>, k: string)
    ensures k in Effective(layers) <==> Defined(layers, k)
  {
    if layers != [] {
      LastLayer(layers, k);
      EffectiveKeys(layers[..|layers|-1], k);
    }
  }

  lemma {:induction false} EffectiveKind(layers: seq<Policy>, k: string, kind: Kind)
    requires OneKind(layers, k, kind)
    ensures k in Effective(layers) ==> KindOf(Effective(layers)[k]) == kind
  {
    if layers != [] {
      LastLayer(layers, k);
      EffectiveKind(layers[..|layers|-1], k, kind);
      assert layers[|layers|-1] in layers;
    }
  }

  /** Flags: the conjunction. */
  lemma {:induction false} FlagsMeet(layers: seq<Policy>, k: string)
    requires OneKind(layers, k, FlagKind) && Defined(layers, k)
    ensures k in Effective(layers)
    ensures Effective(layers)[k] == Flag(forall l: Policy :: l in layers && k in l ==> l[k] == Flag(true))
  {
    EffectiveKeys(layers, k);
    EffectiveKind(layers, k, FlagKind);
    LastLayer(layers, k);
    var front, last := layers[..|layers|-1], layers[|layers|-1];
    EffectiveKeys(front, k);
    assert last in layers;
    if Defined(front, k) {
      FlagsMeet(front, k);
    }
  }

  /** Limits: the minimum. */
  lemma {:induction false} LimitsMeet(layers: seq<Policy>, k: string)
    requires OneKind(layers, k, LimitKind) && Defined(layers, k)
    ensures k in Effective(layers) && Effective(layers)[k].Limit?
    ensures forall l: Policy :: l in layers && k in l ==> Effective(layers)[k].n <= l[k].n
    ensures exists l: Policy :: l in layers && k in l && l[k] == Effective(layers)[k]
  {
    EffectiveKeys(layers, k);
    EffectiveKind(layers, k, LimitKind);
    LastLayer(layers, k);
    var front, last := layers[..|layers|-1], layers[|layers|-1];
    EffectiveKeys(front, k);
    assert last in layers;
    if Defined(front, k) {
      LimitsMeet(front, k);
      var l: Policy :| l in front && k in l && l[k] == Effective(front)[k];
      assert l in layers;
    }
  }

  /** `v` is listed by every layer that defines `k`. */
  ghost predicate InAll(layers: seq<Policy>, k: string, v: string) {
    forall l: Policy :: l in layers && k in l ==> l[k].List? && v in l[k].items
  }

  ghost function KeepCommon(items: seq<string>, layers: seq<Policy>, k: string): seq<string> {
    if items == [] then []
    else (if InAll(layers, k, items[0]) then [items[0]] else []) + KeepCommon(items[1..], layers, k)
  }

  lemma {:induction false} FilterInMembers(items: seq<string>, allowed: seq<string>, v: string)
    ensures v in FilterIn(items, allowed) <==> v in items && v in allowed
  {
    if items != [] {
      FilterInMembers(items[1..], allowed, v);
      assert items == [items[0]] + items[1..];
    }
  }

  lemma {:induction false} KeepCommonMembers(items: seq<string>, layers: seq<Policy>, k: string, v: string)
    ensures v in KeepCommon(items, layers, k) <==> v in items && InAll(layers, k, v)
  {
    if items != [] {
      KeepCommonMembers(items[1..], layers, k, v);
      assert items == [items[0]] + items[1..];
    }
  }

  /** Filtering by a list that holds the values common to `front` leaves those common to all layers. */
  lemma {:induction false} FilterIsKeepCommon(items: seq<string>, allowed: seq<string>, layers: seq<Policy>, k: string)
    requires forall v :: v in items ==> (v in allowed <==> InAll(layers, k, v))
    ensures FilterIn(items, allowed) == KeepCommon(items, layers, k)
  {
    if items != [] {
      assert items[0] in items;
      FilterIsKeepCommon(items[1..], allowed, layers, k);
    }
  }

  /** The last of the layers that defines `k`. */
  ghost function LastDefining(layers: seq<Policy>, k: string): Policy
    requires Defined(layers, k)
    ensures LastDefining(layers, k) in layers && k in LastDefining(layers, k)
  {
    LastLayer(layers, k);
    if k in layers[|layers|-1] then layers[|layers|-1] else LastDefining(layers[..|layers|-1], k)
  }

  /** Lists: what the last defining layer lists, in its order, as far as every defining layer lists it. */
  lemma {:induction false} ListsMeet(layers: seq<Policy>, k: string)
    requires OneKind(layers, k, ListKind) && Defined(layers, k)
    ensures k in Effective(layers)
    ensures LastDefining(layers, k)[k].List?
    ensures Effective(layers)[k] == List(KeepCommon(LastDefining(layers, k)[k].items, layers, k))
  {
    EffectiveKeys(layers, k);
    EffectiveKind(layers, k, ListKind);
    LastLayer(layers, k);
    var front, last := layers[..|layers|-1], layers[|layers|-1];
    EffectiveKeys(front, k);
    assert KindOf(LastDefining(layers, k)[k]) == ListKind;
    var items := LastDefining(layers, k)[k].items;
    if Defined(front, k) {
      ListsMeet(front, k);
      var below := LastDefining(front, k);
      if k in last {
        forall v | v in items ensures v in Effective(front)[k].items <==> InAll(layers, k, v) {
          KeepCommonMembers(below[k].items, front, k, v);
          InAllSplits(layers, k, v);
        }
        FilterIsKeepCommon(items, Effective(front)[k].items, layers, k);
      } else {
        forall v | v in items ensures v in Effective(front)[k].items <==> InAll(layers, k, v) {
          KeepCommonMembers(below[k].items, front, k, v);
          InAllSplits(layers, k, v);
        }
        SameCommon(items, front, layers, k);
      }
    } else {
      forall v | v in items ensures v in items <==> InAll(layers, k, v) {
        InAllSplits(layers, k, v);
      }
      FilterIsKeepCommon(items, items, layers, k);
      FilterAll(items, items);
    }
  }

  lemma InAllSplits(layers: seq<Policy>, k: string, v: string)
    requires layers != []
    ensures var front, last := layers[..|layers|-1], layers[|layers|-1];
            InAll(layers, k, v) <==> InAll(front, k, v) && (k in last ==> last[k].List? && v in last[k].items)
  {
    LastLayer(layers, k);
    assert layers[|layers|-1] in layers;
  }

  lemma {:induction false} SameCommon(items: seq<string>, a: seq<Policy>, b: seq<Policy>, k: string)
    requires forall v :: v in items ==> (InAll(a, k, v) <==> InAll(b, k, v))
    ensures KeepCommon(items, a, k) == KeepCommon(items, b, k)
  {
    if items != [] {
      assert items[0] in items;
      SameCommon(items[1..], a, b, k);
    }
  }

  lemma {:induction false} FilterAll(items: seq<string>, allowed: seq<string>)
    ensures FilterIn(items, allowed) == items <==> forall v :: v in items ==> v in allowed
    ensures |FilterIn(items, allowed)| <= |items|
  {
    if items != [] {
      FilterAll(items[1..], allowed);
      assert items == [items[0]] + items[1..];
      if items[0] in allowed {
        assert FilterIn(items, allowed)[1..] == FilterIn(items[1..], allowed);
      }
    }
  }

  // ----- Checking one field -----

  datatype FieldError =
    | ListExpands(key: string, extras: seq<string>, allowed: seq<string>)
    | FlagEnabled(key: string)
    | LimitRaised(key: string, child: nat, parent: nat)
    | LevelLoosened(key: string, childLevel: string, parentLevel: string)

  function Extras(items: seq<string>, allowed: seq<string>): seq<string> {
    if items == [] then []
    else (if items[0] in allowed then [] else [items[0]]) + Extras(items[1..], allowed)
  }

  lemma {:induction false} NoExtras(items: seq<string>, allowed: seq<string>)
    ensures Extras(items, allowed) == [] <==> forall v :: v in items ==> v in allowed
  {
    if items != [] {
      NoExtras(items[1..], allowed);
      assert items == [items[0]] + items[1..];
    }
  }

  /** What the checks of one field raise. */
  function FieldErrors(key: string, parent: Value, child: Value): seq<FieldError> {
    if parent.List? && child.List? then
      if Extras(child.items, parent.items) != [] then [ListExpands(key, Extras(child.items, parent.items), parent.items)] else []
    else if parent.Flag? && child.Flag? then
      if !parent.b && child.b then [FlagEnabled(key)] else []
    else if parent.Limit? && child.Limit? then
      if child.n > parent.n then [LimitRaised(key, child.n, parent.n)] else []
    else if parent.Text? && child.Text? && LevelNamed(parent.s).Some? && LevelNamed(child.s).Some? then
      if Index(LevelNamed(child.s).value) > Index(LevelNamed(parent.s).value) then [LevelLoosened(key, child.s, parent.s)] else []
    else []
  }

  // ----- Adding a layer -----

  /** Level names are ordered; a text that is none compares with itself only. */
  predicate TextAtMost(a: string, b: string) {
    a == b || (LevelNamed(a).Some? && LevelNamed(b).Some? && Index(LevelNamed(a).value) <= Index(LevelNamed(b).value))
  }

  /** `v` permits no more than `w`. */
  ghost predicate AtMost(v: Value, w: Value) {
    match (v, w)
    case (Flag(a), Flag(b)) => a ==> b
    case (Limit(a), Limit(b)) => a <= b
    case (List(a), List(b)) => forall x :: x in a ==> x in b
    case (Text(a), Text(b)) => TextAtMost(a, b)
    case _ => false
  }

  /** A further layer loosens no key already defined exactly when it keeps the key's kind and, where it
      replaces a text by another, both are level names and checking them raises no error. */
  lemma NeverLoosensIff(layers: seq<Policy>, layer: Policy, k: string)
    requires k in Effective(layers)
    ensures k in Effective(layers + [layer])
    ensures AtMost(Effective(layers + [layer])[k], Effective(layers)[k])
       <==> (k in layer ==>
               var above, own := Effective(layers)[k], layer[k];
               && KindOf(own) == KindOf(above)
               && (own.Text? ==> || own == above
                                 || (&& LevelNamed(own.s).Some? && LevelNamed(above.s).Some?
                                     && FieldErrors(k, above, own) == [])))
  {
    EffectiveSnoc(layers, layer);
    if k in layer && layer[k].List? && Effective(layers)[k].List? {
      forall v ensures v in FilterIn(layer[k].items, Effective(layers)[k].items) ==> v in Effective(layers)[k].items {
        FilterInMembers(layer[k].items, Effective(layers)[k].items, v);
      }
    }
  }

  /** So the enterprise is not a ceiling for every key: a team that writes text where the enterprise sets
      a limit removes the limit. */
  lemma TextReplacesALimit()
    ensures var layers := [map["max" := Limit(5)], map["max" := Text("unlimited")]];
            && "max" in Effective(layers)
            && Effective(layers)["max"] == Text("unlimited")
            && !AtMost(Effective(layers)["max"], Effective(layers[..1])["max"])
  {
    var enterprise, team := map["max" := Limit(5)], map["max" := Text("unlimited")];
    EffectiveSnoc([enterprise], team);
    assert [enterprise] + [team] == [enterprise, team];
    assert [enterprise, team][..1] == [enterprise];
  }

  /** Nor for levels: the merge takes a team's higher level, which the validator rejects. */
  lemma LevelIsLoosened()
    ensures var enterprise, team := map["level" := Text("internal")], map["level" := Text("restricted")];
            && Effective([enterprise, team]) == team
            && !AtMost(team["level"], enterprise["level"])
            && FieldErrors("level", enterprise["level"], team["level"]) == [LevelLoosened("level", "restricted", "internal")]
  {
    var enterprise, team := map["level" := Text("internal")], map["level" := Text("restricted")];
    EffectiveSnoc([enterprise], team);
    assert [enterprise] + [team] == [enterprise, team];
  }

  // ----- Validating -----

  /** The extras are the items that are not allowed, in order. */
  lemma {:induction false} ExtrasInOrder(items: seq<string>, allowed: seq<string>) returns (at: seq<nat>)
    ensures Positions(at, |items|) && forall k: nat :: k < |items| ==> (k in at <==> items[k] !in allowed)
    ensures |Extras(items, allowed)| == |at|
    ensures forall i :: 0 <= i < |at| ==> Extras(items, allowed)[i] == items[at[i]]
  {
    if items == [] {
      at := [];
    } else {
      var n: nat := |items| - 1;
      at := ExtrasInOrder(items[..n], allowed);
      OneMorePosition(at, n);
      ExtrasSnoc(items[..n], items[n], allowed);
      assert items == items[..n] + [items[n]];
      if items[n] !in allowed {
        at := at + [n];
      }
    }
  }

  lemma {:induction false} ExtrasSnoc(items: seq<string>, item: string, allowed: seq<string>)
    ensures Extras(items + [item], allowed) == Extras(items, allowed) + if item in allowed then [] else [item]
  {
    var all := items + [item];
    if items == [] {
      assert all[1..] == [];
    } else {
      assert all[1..] == items[1..] + [item];
      ExtrasSnoc(items[1..], item, allowed);
    }
  }

  /** Which errors the checks of a field raise: at most one, and of which kind. */
  lemma FieldErrorsAre(key: string, parent: Value, child: Value)
    ensures |FieldErrors(key, parent, child)| <= 1
    ensures FlagEnabled(key) in FieldErrors(key, parent, child) <==> parent == Flag(false) && child == Flag(true)
    ensures forall m, n :: LimitRaised(key, m, n) in FieldErrors(key, parent, child)
                      <==> child == Limit(m) && parent == Limit(n) && m > n
    ensures forall extras, allowed :: ListExpands(key, extras, allowed) in FieldErrors(key, parent, child)
                                 <==> && parent == List(allowed) && child.List? && extras == Extras(child.items, allowed)
                                      && exists v :: v in child.items && v !in allowed
    ensures forall a, b :: LevelLoosened(key, a, b) in FieldErrors(key, parent, child)
                      <==> && child == Text(a) && parent == Text(b) && LevelNamed(a).Some? && LevelNamed(b).Some?
                           && Index(LevelNamed(a).value) > Index(LevelNamed(b).value)
  {
    if parent.List? && child.List? {
      NoExtras(child.items, parent.items);
    }
  }

  /** The errors of every field that both define. */
  ghost predicate Raises(parent: Policy, child: Policy, e: FieldError) {
    exists k :: k in child && k in parent && e in FieldErrors(k, parent[k], child[k])
  }

  datatype Validation = Validation(valid: bool, errors: seq<FieldError>)

  method ValidateFields(parent: Policy, child: Policy) returns (errors: seq<FieldError>)
    ensures forall e :: e in errors <==> Raises(parent, child, e)
  {
    errors := [];
    var left := child.Keys;
    while left != {}
      invariant left <= child.Keys
      invariant forall e :: e in errors <==>
                  exists k :: k in child && k !in left && k in parent && e in FieldErrors(k, parent[k], child[k])
      decreases left
    {
      var key :| key in left;
      left := left - {key};
      if key !in parent {
        continue;
      }
      var parentValue, childValue := parent[key], child[key];
      if parentValue.List? && childValue.List? {
        var extraValues := Extras(childValue.items, parentValue.items);
        if |extraValues| > 0 {
          errors := errors + [ListExpands(key, extraValues, parentValue.items)];
        }
      }
      if parentValue.Flag? && childValue.Flag? {
        if !parentValue.b && childValue.b {
          errors := errors + [FlagEnabled(key)];
        }
      }
      if parentValue.Limit? && childValue.Limit? {
        if childValue.n > parentValue.n {
          errors := errors + [LimitRaised(key, childValue.n, parentValue.n)];
        }
      }
      if parentValue.Text? && childValue.Text? && LevelNamed(parentValue.s).Some? && LevelNamed(childValue.s).Some? {
        if Index(LevelNamed(childValue.s).value) > Index(LevelNamed(parentValue.s).value) {
          errors := errors + [LevelLoosened(key, childValue.s, parentValue.s)];
        }
      }
    }
  }

  /** A policy as the store holds it. */
  datatype PolicyRow = PolicyRow(scope: Scope, scopeId: string, domain: string, active: bool, content: string)

  function ParentScope(scope: Scope): Scope
    requires scope != Enterprise
  {
    match scope
    case Org => Enterprise
    case Team => Org
    case User => Team
  }

  function FindByFilter(store: seq<PolicyRow>, scope: Scope): seq<PolicyRow> {
    if store == [] then []
    else (if store[0].scope == scope && store[0].active then [store[0]] else []) + FindByFilter(store[1..], scope)
  }

  /** Checking the child against the parent raises some error. */
  ghost predicate Rejects(parent: Policy, child: Policy) {
    exists e :: Raises(parent, child, e)
  }

  /** What a policy of the scope is checked against: the first active policy of the scope above, if any. */
  function Ceiling(scope: Scope, store: seq<PolicyRow>): Policy
    requires scope != Enterprise
  {
    var found := FindByFilter(store, ParentScope(scope));
    if found == [] then map[] else Parse(found[0].content)
  }

  ghost predicate Accepted(scope: Scope, child: Policy, store: seq<PolicyRow>) {
    scope == Enterprise || !Rejects(Ceiling(scope, store), child)
  }

  /** Row `i` is the store's first active policy of the scope. */
  ghost predicate FirstAt(store: seq<PolicyRow>, scope: Scope, i: nat)
    requires i < |store|
  {
    && store[i].scope == scope && store[i].active
    && forall j :: 0 <= j < i ==> store[j].scope != scope || !store[j].active
  }

  ghost predicate FirstActive(store: seq<PolicyRow>, scope: Scope, row: PolicyRow) {
    exists i: nat :: i < |store| && FirstAt(store, scope, i) && store[i] == row
  }

  lemma {:induction false} FoundNone(store: seq<PolicyRow>, scope: Scope)
    ensures FindByFilter(store, scope) == [] <==> forall row :: row in store ==> row.scope != scope || !row.active
  {
    if store != [] {
      FoundNone(store[1..], scope);
      assert store == [store[0]] + store[1..];
    }
  }

  lemma {:induction false} FoundFirst(store: seq<PolicyRow>, scope: Scope) returns (i: nat)
    requires FindByFilter(store, scope) != []
    ensures i < |store| && FirstAt(store, scope, i) && store[i] == FindByFilter(store, scope)[0]
  {
    if store[0].scope == scope && store[0].active {
      i := 0;
    } else {
      var k := FoundFirst(store[1..], scope);
      i := k + 1;
      assert forall j :: 0 < j < i ==> store[j] == store[1..][j-1];
    }
  }

  /** The parent is the first active policy of the scope above, of whatever domain and whichever
      organisation or team it belongs to. */
  method Validate(scope: Scope, content: string, store: seq<PolicyRow>) returns (r: Validation)
    ensures r.valid <==> r.errors == []
    ensures r.valid <==> Accepted(scope, Parse(content), store)
    ensures scope == Enterprise ==> r.valid
    ensures scope != Enterprise && (forall row :: row in store ==> row.scope != ParentScope(scope) || !row.active) ==> r.valid
    ensures forall row :: scope != Enterprise && FirstActive(store, ParentScope(scope), row) ==>
              forall e :: e in r.errors <==> Raises(Parse(row.content), Parse(content), e)
  {
    if scope == Enterprise {
      return Validation(true, []);
    }
    var parents := FindByFilter(store, ParentScope(scope));
    FoundNone(store, ParentScope(scope));
    if |parents| == 0 {
      return Validation(true, []);
    }
    ghost var first := FoundFirst(store, ParentScope(scope));
    assert forall row :: FirstActive(store, ParentScope(scope), row) ==> row == store[first];
    var parentContent := ParsePolicyContent(parents[0].content);
    var childContent := ParsePolicyContent(content);
    var errors := ValidateFields(parentContent, childContent);
    assert errors != [] ==> errors[0] in errors;
    r := Validation(|errors| == 0, errors);
  }

  /** No list, flag or limit error. */
  ghost predicate Clean(parent: Policy, child: Policy) {
    forall e :: Raises(parent, child, e) ==> e.LevelLoosened?
  }

  ghost predicate CleanField(k: string, parent: Value, child: Value) {
    forall e :: e in FieldErrors(k, parent, child) ==> e.LevelLoosened?
  }

  lemma CleanIsFieldwise(parent: Policy, child: Policy)
    ensures Clean(parent, child) <==> forall k :: k in parent && k in child ==> CleanField(k, parent[k], child[k])
  {
    if Clean(parent, child) {
      forall k | k in parent && k in child ensures CleanField(k, parent[k], child[k]) {
        assert forall e :: e in FieldErrors(k, parent[k], child[k]) ==> Raises(parent, child, e);
      }
    }
  }

  /** The validator's list, flag and limit checks agree with the merge: they raise nothing exactly when
      merging is plain overwriting by the child's keys. */
  lemma ValidatorAgreesWithMerge(parent: Policy, child: Policy)
    ensures Clean(parent, child) <==> Merge(parent, child) == parent + child
  {
    CleanIsFieldwise(parent, child);
    forall k | k in parent && k in child
      ensures MergeValue(parent[k], child[k]) == child[k] <==> CleanField(k, parent[k], child[k])
    {
      FieldAgrees(k, parent[k], child[k]);
    }
    if Merge(parent, child) == parent + child {
      assert forall k :: k in child && k in parent ==> Merge(parent, child)[k] == child[k];
    } else {
      assert exists k :: k in child && k in parent && Merge(parent, child)[k] != child[k];
    }
  }

  lemma FieldAgrees(k: string, parent: Value, child: Value)
    ensures MergeValue(parent, child) == child <==> CleanField(k, parent, child)
  {
    if parent.List? && child.List? {
      FilterAll(child.items, parent.items);
      NoExtras(child.items, parent.items);
    }
    var errors := FieldErrors(k, parent, child);
    assert |errors| <= 1;
    if errors != [] {
      assert errors[0] in errors;
      assert errors[0].LevelLoosened? <==> MergeValue(parent, child) == child;
    }
  }

  // ----- When the verdict is that of the policy's own parent -----

  /** What a parent's value forbids a child. */
  datatype Bound = Anything | Among(allowed: set<string>) | NoEnabling | UpTo(n: nat) | LevelUpTo(level: Level)

  function BoundOf(v: Value): Bound {
    match v
    case List(items) => Among(set x | x in items)
    case Flag(b) => if b then Anything else NoEnabling
    case Limit(n) => UpTo(n)
    case Text(s) =>
      if LevelNamed(s).None? || LevelNamed(s) == Some(Restricted) then Anything else LevelUpTo(LevelNamed(s).value)
  }

  function BoundAt(p: Policy, k: string): Bound {
    if k in p then BoundOf(p[k]) else Anything
  }

  ghost predicate Exceeds(bound: Bound, v: Value) {
    match bound
    case Anything => false
    case Among(allowed) => v.List? && exists x :: x in v.items && x !in allowed
    case NoEnabling => v == Flag(true)
    case UpTo(n) => v.Limit? && v.n > n
    case LevelUpTo(level) => v.Text? && LevelNamed(v.s).Some? && Index(LevelNamed(v.s).value) > Index(level)
  }

  lemma ErrorsIffExceeds(k: string, parent: Value, child: Value)
    ensures FieldErrors(k, parent, child) != [] <==> Exceeds(BoundOf(parent), child)
  {
    if parent.List? && child.List? {
      NoExtras(child.items, parent.items);
    }
  }

  lemma RejectsIffExceeds(parent: Policy, child: Policy)
    ensures Rejects(parent, child) <==> exists k :: k in child && Exceeds(BoundAt(parent, k), child[k])
  {
    if Rejects(parent, child) {
      var e :| Raises(parent, child, e);
      var k :| k in child && k in parent && e in FieldErrors(k, parent[k], child[k]);
      ErrorsIffExceeds(k, parent[k], child[k]);
      assert Exceeds(BoundAt(parent, k), child[k]);
    }
    if exists k :: k in child && Exceeds(BoundAt(parent, k), child[k]) {
      var k :| k in child && Exceeds(BoundAt(parent, k), child[k]);
      ErrorsIffExceeds(k, parent[k], child[k]);
      assert FieldErrors(k, parent[k], child[k])[0] in FieldErrors(k, parent[k], child[k]);
      assert Raises(parent, child, FieldErrors(k, parent[k], child[k])[0]);
    }
  }

  /** A string that is not in the set. */
  lemma {:induction false} FreshString(taken: set<string>) returns (x: string)
    ensures forall y :: y in taken ==> |y| < |x|
    decreases taken
  {
    if taken == {} {
      x := "x";
    } else {
      var y :| y in taken;
      var longer := FreshString(taken - {y});
      x := longer + y + "x";
      assert forall z :: z in taken ==> z == y || z in taken - {y};
    }
  }

  /** A value that exceeds the bound, of the one kind it limits. */
  lemma Exceeding(a: Bound) returns (v: Value)
    requires a != Anything && a != LevelUpTo(Restricted)
    ensures Exceeds(a, v)
    ensures v.List? == a.Among? && v.Flag? == a.NoEnabling? && v.Limit? == a.UpTo? && v.Text? == a.LevelUpTo?
  {
    match a
    case Among(allowed) =>
      var x := FreshString(allowed);
      v := List([x]);
      assert x in v.items;
    case NoEnabling => v := Flag(true);
    case UpTo(n) => v := Limit(n + 1);
    case LevelUpTo(_) => v := Text("restricted");
  }

  /** A value that exceeds one of the bounds and not the other. */
  lemma Separating(a: Bound, b: Bound) returns (v: Value)
    requires a != b && a != LevelUpTo(Restricted) && b != LevelUpTo(Restricted)
    ensures Exceeds(a, v) != Exceeds(b, v)
  {
    match (a, b)
    case (Among(s), Among(t)) =>
      var x :| (x in s) != (x in t);
      v := List([x]);
      assert v.items == [x] && x in v.items;
    case (UpTo(n), UpTo(m)) => v := Limit(if n < m then m else n);
    case (LevelUpTo(l), LevelUpTo(m)) =>
      v := Text(LevelName(if Index(l) < Index(m) then m else l));
    case _ =>
      if a == Anything {
        v := Exceeding(b);
      } else {
        v := Exceeding(a);
      }
  }

  /** Two parents have the same verdict on every child exactly when they put the same bound on every key. */
  lemma SameVerdictIff(p: Policy, q: Policy)
    ensures (forall child :: Rejects(p, child) <==> Rejects(q, child)) <==> forall k :: BoundAt(p, k) == BoundAt(q, k)
  {
    if forall k :: BoundAt(p, k) == BoundAt(q, k) {
      forall child ensures Rejects(p, child) <==> Rejects(q, child) {
        RejectsIffExceeds(p, child);
        RejectsIffExceeds(q, child);
      }
    } else {
      var k :| BoundAt(p, k) != BoundAt(q, k);
      var v := Separating(BoundAt(p, k), BoundAt(q, k));
      var child: Policy := map[k := v];
      RejectsIffExceeds(p, child);
      RejectsIffExceeds(q, child);
      assert Rejects(p, child) == Exceeds(BoundAt(p, k), child[k]) != Exceeds(BoundAt(q, k), child[k]) == Rejects(q, child);
    }
  }

  /** The validator decides by a policy's own parent, be it in the store or, if there is none, the empty one,
      exactly when the first active policy of the scope above puts the same bound on every key. */
  lemma OwnParentDecidesIff(scope: Scope, store: seq<PolicyRow>, own: Policy)
    requires scope != Enterprise
    ensures (forall child :: Accepted(scope, child, store) <==> !Rejects(own, child))
       <==> forall k :: BoundAt(Ceiling(scope, store), k) == BoundAt(own, k)
  {
    SameVerdictIff(Ceiling(scope, store), own);
    forall child ensures Accepted(scope, child, store) <==> !Rejects(Ceiling(scope, store), child) {
    }
  }

  /** The text that sets the limit. */
  function MaxText(n: nat): string {
    Print([Entry("max", Limit(n))])
  }

  lemma MaxTextReads(n: nat)
    ensures Parse(MaxText(n)) == map["max" := Limit(n)]
  {
    var entry := Entry("max", Limit(n));
    assert Good(entry);
    PrintRoundTrip([entry]);
    assert [entry][..0] == [];
  }

  /** A team's limit of 50 is accepted though its own organisation allows 5, because another organisation,
      which allows 100, comes first in the store. */
  lemma ForeignParentDecides(domain: string)
    ensures var other, mine := PolicyRow(Org, "other", domain, true, MaxText(100)), PolicyRow(Org, "mine", domain, true, MaxText(5));
            var team := Parse(MaxText(50));
            && Accepted(Team, team, [other, mine])
            && Raises(Parse(mine.content), team, LimitRaised("max", 50, 5))
  {
    MaxTextReads(100);
    MaxTextReads(50);
    MaxTextReads(5);
    var mine := Parse(MaxText(5));
    assert FieldErrors("max", mine["max"], Limit(50)) == [LimitRaised("max", 50, 5)];
  }

  // ----- Validating a chain of scopes -----

  /** Each key as the last layer that defines it has it. */
  function Overwritten(layers: seq<Policy>): Policy {
    if layers == [] then map[] else Overwritten(layers[..|layers|-1]) + layers[|layers|-1]
  }

  /** Resolving the first `n` layers is plain overwriting. */
  ghost predicate SameAt(layers: seq<Policy>, n: nat)
    requires n <= |layers|
  {
    Effective(layers[..n]) == Overwritten(layers[..n])
  }

  /** At every scope, resolving is plain overwriting. */
  ghost predicate NothingHeldBack(layers: seq<Policy>) {
    forall n: nat :: n <= |layers| ==> SameAt(layers, n)
  }

  lemma {:induction false} OverwrittenByLast(layers: seq<Policy>, k: string)
    ensures k in Overwritten(layers) <==> Defined(layers, k)
    ensures Defined(layers, k) ==> Overwritten(layers)[k] == LastDefining(layers, k)[k]
  {
    if layers != [] {
      LastLayer(layers, k);
      OverwrittenByLast(layers[..|layers|-1], k);
    }
  }

  lemma TakeSnoc(layers: seq<Policy>, n: nat)
    requires n < |layers|
    ensures layers[..n+1] == layers[..n] + [layers[n]]
    ensures Effective(layers[..n+1]) == Merge(Effective(layers[..n]), layers[n])
    ensures Overwritten(layers[..n+1]) == Overwritten(layers[..n]) + layers[n]
  {
    EffectiveSnoc(layers[..n], layers[n]);
    assert layers[..n+1] == layers[..n] + [layers[n]];
    assert layers[..n+1][..n] == layers[..n];
  }

  lemma SameNext(layers: seq<Policy>, n: nat)
    requires n < |layers| && SameAt(layers, n)
    ensures SameAt(layers, n + 1) <==> Clean(Effective(layers[..n]), layers[n])
  {
    TakeSnoc(layers, n);
    ValidatorAgreesWithMerge(Effective(layers[..n]), layers[n]);
  }

  /** Layer `n` passes the check against what is effective above it. */
  ghost predicate PassesAbove(layers: seq<Policy>, n: nat)
    requires n < |layers|
  {
    Clean(Effective(layers[..n]), layers[n])
  }

  /** Checking every layer against what is effective above it raises no list, flag or limit error exactly
      when nothing is held back. */
  lemma ChainAgreesWithResolve(layers: seq<Policy>)
    ensures (forall n: nat :: n < |layers| ==> PassesAbove(layers, n)) <==> NothingHeldBack(layers)
  {
    if forall n: nat :: n < |layers| ==> PassesAbove(layers, n) {
      var n: nat := 0;
      while n < |layers|
        invariant n <= |layers| && forall m: nat :: m <= n ==> SameAt(layers, m)
      {
        assert PassesAbove(layers, n);
        SameNext(layers, n);
        n := n + 1;
      }
    }
    if NothingHeldBack(layers) {
      forall n: nat | n < |layers| ensures PassesAbove(layers, n) {
        assert SameAt(layers, n) && SameAt(layers, n + 1);
        SameNext(layers, n);
      }
    }
  }

  /** Layer `n` passes the check of key `k` against the nearest scope above that defines it. */
  ghost predicate PassesNearest(layers: seq<Policy>, n: nat, k: string)
    requires n < |layers|
  {
    k in layers[n] && Defined(layers[..n], k) ==> CleanField(k, LastDefining(layers[..n], k)[k], layers[n][k])
  }

  lemma PassesAboveIff(layers: seq<Policy>, n: nat)
    requires n < |layers| && SameAt(layers, n)
    ensures PassesAbove(layers, n) <==> forall k :: PassesNearest(layers, n, k)
  {
    var above := Overwritten(layers[..n]);
    CleanIsFieldwise(above, layers[n]);
    forall k
      ensures PassesNearest(layers, n, k) <==> (k in above && k in layers[n] ==> CleanField(k, above[k], layers[n][k]))
    {
      OverwrittenByLast(layers[..n], k);
    }
  }

  /** It is enough to check each key against the nearest scope above that defines it. */
  lemma NearestDecides(layers: seq<Policy>)
    ensures NothingHeldBack(layers) <==> forall n: nat, k :: n < |layers| ==> PassesNearest(layers, n, k)
  {
    ChainAgreesWithResolve(layers);
    if NothingHeldBack(layers) {
      forall n: nat, k | n < |layers| ensures PassesNearest(layers, n, k) {
        assert SameAt(layers, n) && PassesAbove(layers, n);
        PassesAboveIff(layers, n);
      }
    }
    if forall n: nat, k :: n < |layers| ==> PassesNearest(layers, n, k) {
      var n: nat := 0;
      while n < |layers|
        invariant n <= |layers| && forall m: nat :: m <= n ==> SameAt(layers, m)
      {
        PassesAboveIff(layers, n);
        SameNext(layers, n);
        n := n + 1;
      }
    }
  }

  /** The validator looks one scope up only. When every layer passes that check, nothing is held back
      exactly when each key that skips the scope above passes the check against the nearest one that
      defines it. */
  lemma AdjacentChecksSufficeIff(layers: seq<Policy>)
    requires forall n :: 0 < n < |layers| ==> Clean(layers[n-1], layers[n])
    ensures NothingHeldBack(layers)
       <==> forall n: nat, k :: 0 < n < |layers| && k !in layers[n-1] ==> PassesNearest(layers, n, k)
  {
    NearestDecides(layers);
    forall n: nat, k | n < |layers| && (n > 0 ==> k in layers[n-1]) ensures PassesNearest(layers, n, k) {
      if n > 0 && k in layers[n] {
        CleanIsFieldwise(layers[n-1], layers[n]);
        assert layers[..n][n-1] == layers[n-1];
      }
    }
  }

  lemma EffectiveOfThree(a: Policy, b: Policy, c: Policy)
    ensures Effective([a, b, c]) == Merge(Merge(a, b), c)
  {
    var two, three := [a, b], [a, b, c];
    assert three[..2] == two && two[..1] == [a];
    EffectiveSnoc([], a);
  }

  lemma LastOverwrites(layers: seq<Policy>, last: Policy, k: string)
    requires k in last
    ensures k in Overwritten(layers + [last]) && Overwritten(layers + [last])[k] == last[k]
  {
    assert (layers + [last])[..|layers|] == layers;
  }

  /** A limit that skips a scope is not checked: the team's 10 passes, though the enterprise's 5 holds. */
  lemma SkippedScopeIsOverlooked()
    ensures var enterprise, org, team := map["max" := Limit(5)], map[], map["max" := Limit(10)];
            && Clean(enterprise, org) && Clean(org, team)
            && Effective([enterprise, org, team]) == enterprise
            && !NothingHeldBack([enterprise, org, team])
  {
    var enterprise: Policy, org: Policy, team: Policy := map["max" := Limit(5)], map[], map["max" := Limit(10)];
    var layers := [enterprise, org, team];
    EffectiveOfThree(enterprise, org, team);
    LastOverwrites([enterprise, org], team, "max");
    assert [enterprise, org] + [team] == layers && layers[..3] == layers;
    assert !SameAt(layers, 3);
  }
}

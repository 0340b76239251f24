/**
 Reconciling network security groups. Groups are maps from rule ids to rules; rules are added and
 then removed in batches of 25, and any remote call may fail.
 */
module NsgReconcile {
  import opened Common
  import opened NsgRules

  const BATCH_SIZE := 25

  // ---------- Batches ----------

  function Concat<T>(batches: seq<seq<T>>): seq<T> {
    if batches == [] then [] else Concat(batches[..|batches| - 1]) + batches[|batches| - 1]
  }

  lemma ConcatStep<T>(batches: seq<seq<T>>, i: nat)
    requires i < |batches|
    ensures Concat(batches[..i + 1]) == Concat(batches[..i]) + batches[i]
  {
    assert batches[..i + 1][..i] == batches[..i];
  }

  /** splitRulesIntoBatches and splitRuleIdsIntoBatches: full batches, then the rest. */
  method SplitIntoBatches<T>(all: seq<T>) returns (batches: seq<seq<T>>)
    ensures Concat(batches) == all
    ensures batches != [] && forall i | 0 <= i < |batches| :: |batches[i]| <= 25
    ensures forall i | 0 <= i < |batches| - 1 :: |batches[i]| == 25
  {
    batches := [];
    var rules := all;
    while BATCH_SIZE < |rules|
      invariant Concat(batches) + rules == all
      invariant forall i | 0 <= i < |batches| :: |batches[i]| == BATCH_SIZE
    {
      ghost var before := batches;
      batches := batches + [rules[..BATCH_SIZE]];
      assert batches[..|batches| - 1] == before;
      assert rules == rules[..BATCH_SIZE] + rules[BATCH_SIZE..];
      rules := rules[BATCH_SIZE..];
    }
    ghost var before := batches;
    batches := batches + [rules];
    assert batches[..|batches| - 1] == before;
  }

  // ---------- Groups ----------

  type Group = map<nat, NsgRule>

  /** filterSecurityRulesForService within the listed directions. */
  predicate Owned(r: NsgRule, uid: string, dirs: set<Direction>) {
    r.description == Some(uid) && r.direction in dirs
  }

  /** What is in place for a service, up to the comparison of findSecurityRule. */
  function Slice(fold: string -> string, g: Group, uid: string, dirs: set<Direction>): set<Key> {
    set id | id in g && Owned(g[id], uid, dirs) :: KeyOf(fold, g[id])
  }

  /** A reconciliation of one service's rules in one group: the wanted keys in these directions. */
  datatype Target = Target(uid: string, dirs: set<Direction>, want: set<Key>)

  /** How far a reconciliation may have come at any moment: only wanted rules are new, foreign and
      wanted rules are untouched, and nothing is removed before everything wanted is present. */
  ghost predicate Progress(fold: string -> string, g: Group, h: Group, next: nat, t: Target) {
    && (forall id | id in g && id !in h :: Owned(g[id], t.uid, t.dirs) && KeyOf(fold, g[id]) !in t.want)
    && (forall id | id in g && id in h :: h[id] == g[id])
    && (forall id | id in h && id !in g :: id >= next && Owned(h[id], t.uid, t.dirs) && KeyOf(fold, h[id]) in t.want)
    && ((exists id :: id in g && id !in h) ==> t.want <= Slice(fold, h, t.uid, t.dirs))
  }

  ghost predicate Done(fold: string -> string, g: Group, h: Group, next: nat, t: Target) {
    Progress(fold, g, h, next, t) && Slice(fold, h, t.uid, t.dirs) == t.want
  }

  /** The group after adding rules under the ids from `next` on. */
  function Grow(g: Group, next: nat, rules: seq<NsgRule>): Group {
    if rules == [] then g
    else
      var n := |rules| - 1;
      Grow(g, next, rules[..n])[next + n := rules[n]]
  }

  lemma {:induction false} GrowMeans(g: Group, next: nat, rules: seq<NsgRule>)
    requires Bounded(g, next)
    ensures var h := Grow(g, next, rules);
            && (forall id :: id in h <==> id in g || next <= id < next + |rules|)
            && (forall id | id in g :: h[id] == g[id])
            && (forall id | id in h && id !in g :: h[id] == rules[id - next])
  {
    if rules != [] {
      var n := |rules| - 1;
      GrowMeans(g, next, rules[..n]);
      var h := Grow(g, next, rules);
      forall id | id in h && id !in g ensures next <= id < next + |rules| && h[id] == rules[id - next] {
        if id != next + n { assert rules[..n][id - next] == rules[id - next]; }
      }
    }
  }

  lemma Holder(fold: string -> string, g: Group, uid: string, dirs: set<Direction>, key: Key) returns (id: nat)
    requires key in Slice(fold, g, uid, dirs)
    ensures id in g && Owned(g[id], uid, dirs) && KeyOf(fold, g[id]) == key
  {
    id :| id in g && Owned(g[id], uid, dirs) && KeyOf(fold, g[id]) == key;
  }

  /** The lists that reconcileSecurityRules computes for a target: missing wanted rules, and the
      ids of owned rules that are not wanted. */
  ghost predicate Plan(fold: string -> string, g: Group, t: Target, adds: seq<NsgRule>, removes: seq<nat>) {
    && (forall r | r in adds :: Owned(r, t.uid, t.dirs) && KeyOf(fold, r) in t.want)
    && (forall k | k in t.want :: k in Slice(fold, g, t.uid, t.dirs) || k in Keys(fold, adds))
    && (forall id :: id in removes <==> id in g && Owned(g[id], t.uid, t.dirs) && KeyOf(fold, g[id]) !in t.want)
  }

  ghost function Bounded(g: Group, next: nat): bool {
    forall id | id in g :: id < next
  }

  /** Any prefix of the additions is progress. */
  lemma AddsProgress(fold: string -> string, g: Group, next: nat, t: Target, adds: seq<NsgRule>, removes: seq<nat>,
                     k: nat)
    requires Bounded(g, next) && Plan(fold, g, t, adds, removes) && k <= |adds|
    ensures Progress(fold, g, Grow(g, next, adds[..k]), next, t)
    ensures Bounded(Grow(g, next, adds[..k]), next + k)
  {
    GrowMeans(g, next, adds[..k]);
  }

  /** After all additions, everything wanted is present. */
  lemma AddsComplete(fold: string -> string, g: Group, next: nat, t: Target, adds: seq<NsgRule>, removes: seq<nat>)
    requires Bounded(g, next) && Plan(fold, g, t, adds, removes)
    ensures t.want <= Slice(fold, Grow(g, next, adds), t.uid, t.dirs)
  {
    var h := Grow(g, next, adds);
    forall k | k in t.want ensures k in Slice(fold, h, t.uid, t.dirs) {
      var id := GrownHolder(fold, g, next, t, adds, removes, k);
    }
  }

  /** A wanted key is held by a rule that was there or by a new one. */
  lemma GrownHolder(fold: string -> string, g: Group, next: nat, t: Target, adds: seq<NsgRule>, removes: seq<nat>,
                    k: Key) returns (id: nat)
    requires Bounded(g, next) && Plan(fold, g, t, adds, removes) && k in t.want
    ensures var h := Grow(g, next, adds); id in h && Owned(h[id], t.uid, t.dirs) && KeyOf(fold, h[id]) == k
  {
    GrowMeans(g, next, adds);
    if k in Slice(fold, g, t.uid, t.dirs) {
      id := Holder(fold, g, t.uid, t.dirs, k);
    } else {
      var i := HolderAt(fold, adds, k);
      id := next + i;
    }
  }

  lemma HolderAt(fold: string -> string, rules: seq<NsgRule>, key: Key) returns (i: nat)
    requires key in Keys(fold, rules)
    ensures i < |rules| && KeyOf(fold, rules[i]) == key && rules[i] in rules
  {
    i :| i < |rules| && KeyOf(fold, rules[i]) == key;
  }

  /** Any prefix of the removals is progress, and all of them finish the job. */
  lemma RemovesProgress(fold: string -> string, g: Group, next: nat, t: Target, adds: seq<NsgRule>, removes: seq<nat>,
                        k: nat)
    requires Bounded(g, next) && Plan(fold, g, t, adds, removes) && k <= |removes|
    ensures Progress(fold, g, Grow(g, next, adds) - ToNatSet(removes[..k]), next, t)
    ensures k == |removes| ==> Done(fold, g, Grow(g, next, adds) - ToNatSet(removes[..k]), next, t)
  {
    AddsComplete(fold, g, next, t, adds, removes);
    GrowMeans(g, next, adds);
    var f := Grow(g, next, adds);
    var h := f - ToNatSet(removes[..k]);
    forall id | id in f && id !in h ensures id in removes {
      assert id in removes[..k];
    }
    WantedStays(fold, f, h, t, removes);
    if k == |removes| {
      assert removes[..k] == removes;
      forall key | key in Slice(fold, h, t.uid, t.dirs) ensures key in t.want {
        var id := Holder(fold, h, t.uid, t.dirs, key);
        assert id in g ==> id !in removes;
      }
    }
  }

  /** Removing unwanted rules takes no wanted key away. */
  lemma WantedStays(fold: string -> string, f: Group, h: Group, t: Target, removes: seq<nat>)
    requires t.want <= Slice(fold, f, t.uid, t.dirs)
    requires forall id | id in f && id !in h :: id in removes
    requires forall id | id in h :: id in f && h[id] == f[id]
    requires forall id | id in removes :: id in f && KeyOf(fold, f[id]) !in t.want
    ensures t.want <= Slice(fold, h, t.uid, t.dirs)
  {
    forall key | key in t.want ensures key in Slice(fold, h, t.uid, t.dirs) {
      var id := Holder(fold, f, t.uid, t.dirs, key);
      assert id in h;
    }
  }

  function ToNatSet(s: seq<nat>): set<nat> {
    set x | x in s
  }

  /** Interrupted anywhere and run again, a reconciliation ends as if it had not been interrupted. */
  lemma RerunConverges(fold: string -> string, g: Group, mid: Group, h: Group, next: nat, later: nat, t: Target)
    requires Bounded(g, next) && next <= later
    requires Progress(fold, g, mid, next, t) && Done(fold, mid, h, later, t)
    ensures Done(fold, g, h, next, t)
  {}

  /** Two finished reconciliations of one group agree on the wanted keys and on every other rule. */
  lemma DoneAgree(fold: string -> string, g: Group, h: Group, i: Group, next: nat, t: Target)
    requires Bounded(g, next) && Done(fold, g, h, next, t) && Done(fold, g, i, next, t)
    ensures Slice(fold, h, t.uid, t.dirs) == Slice(fold, i, t.uid, t.dirs)
    ensures forall id :: (id in h && !Owned(h[id], t.uid, t.dirs)) <==> (id in i && !Owned(i[id], t.uid, t.dirs))
    ensures forall id | id in h && !Owned(h[id], t.uid, t.dirs) :: h[id] == i[id]
  {}

  // ---------- reconcileSecurityRules ----------

  /** findSecurityRule: some rule compares equal. */
  method FindSecurityRule(fold: string -> string, rules: seq<NsgRule>, rule: NsgRule) returns (found: bool)
    ensures found <==> KeyOf(fold, rule) in Keys(fold, rules)
    ensures found <==> exists r :: r in rules && ComparesEqual(fold, r, rule)
  {
    for i := 0 to |rules|
      invariant forall j | 0 <= j < i :: KeyOf(fold, rules[j]) != KeyOf(fold, rule)
    {
      var existing := rules[i];
      if fold(Deref(existing.description)) != fold(Deref(rule.description)) { continue; }
      if fold(Deref(existing.protocol)) != fold(Deref(rule.protocol)) { continue; }
      if fold(Deref(existing.source)) != fold(Deref(rule.source)) { continue; }
      if existing.sourceType != rule.sourceType { continue; }
      if fold(Deref(existing.destination)) != fold(Deref(rule.destination)) { continue; }
      if existing.destinationType != rule.destinationType { continue; }
      if existing.tcp != rule.tcp { continue; }
      if existing.direction != rule.direction { continue; }
      assert existing in rules && KeyOf(fold, existing) == KeyOf(fold, rule) && ComparesEqual(fold, existing, rule);
      return true;
    }
    return false;
  }

  /** A listed rule with its id. */
  datatype Listed = Listed(id: nat, rule: NsgRule)

  function RulesOf(l: seq<Listed>): seq<NsgRule> {
    seq(|l|, i requires 0 <= i < |l| => l[i].rule)
  }

  method ReconcileSecurityRules(fold: string -> string, generated: seq<NsgRule>, existing: seq<Listed>)
    returns (addRules: seq<NsgRule>, removeRules: seq<nat>)
    ensures forall r :: r in addRules <==> r in generated && KeyOf(fold, r) !in Keys(fold, RulesOf(existing))
    ensures forall id :: id in removeRules <==>
            exists e :: e in existing && e.id == id && KeyOf(fold, e.rule) !in Keys(fold, generated)
  {
    addRules, removeRules := [], [];
    for i := 0 to |existing|
      invariant forall id :: id in removeRules <==>
                exists e :: e in existing[..i] && e.id == id && KeyOf(fold, e.rule) !in Keys(fold, generated)
    {
      var foundRule := FindSecurityRule(fold, generated, existing[i].rule);
      assert existing[..i + 1] == existing[..i] + [existing[i]];
      if !foundRule {
        removeRules := removeRules + [existing[i].id];
      }
    }
    assert existing[..|existing|] == existing;
    for i := 0 to |generated|
      invariant forall r :: r in addRules <==> r in generated[..i] && KeyOf(fold, r) !in Keys(fold, RulesOf(existing))
    {
      var foundRule := FindSecurityRule(fold, RulesOf(existing), generated[i]);
      if !foundRule {
        addRules := addRules + [generated[i]];
      }
    }
    assert generated[..|generated|] == generated;
  }

  /** What a listing by direction returns, in any order. */
  ghost predicate IsListing(g: Group, dir: Direction, l: seq<Listed>) {
    && (forall e | e in l :: e.id in g && g[e.id] == e.rule && e.rule.direction == dir)
    && (forall id | id in g && g[id].direction == dir :: Listed(id, g[id]) in l)
  }

  method FilterSecurityRulesForService(rules: seq<Listed>, uid: string) returns (mine: seq<Listed>)
    ensures forall e :: e in mine <==> e in rules && e.rule.description == Some(uid)
  {
    mine := [];
    for i := 0 to |rules|
      invariant forall e :: e in mine <==> e in rules[..i] && e.rule.description == Some(uid)
    {
      if rules[i].rule.description.Some? && rules[i].rule.description.value == uid {
        mine := mine + [rules[i]];
      }
    }
    assert rules[..|rules|] == rules;
  }

  method FilterSecurityRulesIdsForService(rules: seq<Listed>, uid: string) returns (ids: seq<nat>)
    ensures forall id :: id in ids <==> exists e :: e in rules && e.id == id && e.rule.description == Some(uid)
  {
    ids := [];
    for i := 0 to |rules|
      invariant forall id :: id in ids <==> exists e :: e in rules[..i] && e.id == id && e.rule.description == Some(uid)
    {
      assert rules[..i + 1] == rules[..i] + [rules[i]];
      if rules[i].rule.description.Some? && rules[i].rule.description.value == uid {
        ids := ids + [rules[i].id];
      }
    }
    assert rules[..|rules|] == rules;
  }
}

/** Which keys of an input class are whitelisted, given the declarations along its inheritance chain. */
module UnifiedFields {
  import opened Outcomes

  /** What one class of the chain declares itself. */
  datatype Level = Level(included: seq<string>, excluded: seq<string>, forceIncluded: seq<string>)

  // ---- the rule ----

  /** The explicit setting of a class for a key; re-enabling comes first. */
  function Setting(l: Level, key: string): Option<bool> {
    if key in l.forceIncluded then Some(true)
    else if key in l.excluded then Some(false)
    else None
  }

  /** The nearest explicit setting, from the class itself upwards. */
  function Nearest(chain: seq<Level>, key: string): Option<bool> {
    if chain == [] then None
    else if Setting(chain[0], key).Some? then Setting(chain[0], key)
    else Nearest(chain[1..], key)
  }

  predicate Declared(chain: seq<Level>, key: string) {
    exists i :: 0 <= i < |chain| && key in chain[i].included
  }

  /** Re-enabled by the nearest explicit setting, or declared somewhere without any. */
  predicate Whitelisted(chain: seq<Level>, key: string) {
    match Nearest(chain, key)
    case Some(enabled) => enabled
    case None => Declared(chain, key)
  }

  function Mentioned(chain: seq<Level>): (r: set<string>)
    ensures forall k :: Declared(chain, k) || Nearest(chain, k) == Some(true) ==> k in r
  {
    if chain == [] then {}
    else (set k | k in chain[0].included + chain[0].forceIncluded) + Mentioned(chain[1..])
  }

  function UnifiedKeys(chain: seq<Level>): (r: set<string>)
    ensures forall k :: k in r <==> Whitelisted(chain, k)
  {
    set k | k in Mentioned(chain) && Whitelisted(chain, k)
  }

  // ---- the walk ----

  lemma {:induction false} NearestExtends(chain: seq<Level>, l: Level, key: string)
    ensures Nearest(chain + [l], key) == if Nearest(chain, key).Some? then Nearest(chain, key) else Setting(l, key)
  {
    if chain == [] {
      assert chain + [l] == [l] && [l][1..] == [];
    } else {
      assert (chain + [l])[1..] == chain[1..] + [l];
      NearestExtends(chain[1..], l, key);
    }
  }

  /** What the four sets of the walk hold after the classes of `chain`. */
  ghost predicate Walked(chain: seq<Level>, implicit: set<string>, excludes: set<string>, includes: set<string>,
                         resolved: set<string>) {
    forall k ::
      (k in implicit <==> Declared(chain, k)) && (k in excludes <==> Nearest(chain, k) == Some(false)) &&
      (k in includes <==> Nearest(chain, k) == Some(true)) && (k in resolved <==> Nearest(chain, k).Some?)
  }

  /** The keys a class settles that no class below it has settled. */
  method Settle(keys: seq<string>, resolved: set<string>) returns (settled: set<string>, resolved': set<string>)
    ensures settled == (set k | k in keys) - resolved
    ensures resolved' == resolved + set k | k in keys
  {
    settled, resolved' := {}, resolved;
    for j := 0 to |keys|
      invariant settled == (set k | k in keys[..j]) - resolved
      invariant resolved' == resolved + set k | k in keys[..j]
    {
      assert keys[..j + 1] == keys[..j] + [keys[j]];
      if keys[j] !in resolved' {
        settled := settled + {keys[j]};
        resolved' := resolved' + {keys[j]};
      }
    }
    assert keys[..|keys|] == keys;
  }

  /** `getUnifiedFieldKeys`: one pass from the class to its ancestors, nearest setting first. */
  method GetUnifiedFieldKeys(chain: seq<Level>) returns (result: set<string>)
    ensures result == UnifiedKeys(chain)
  {
    var implicit: set<string>, excludes: set<string>, includes: set<string>, resolved: set<string> := {}, {}, {}, {};
    for i := 0 to |chain|
      invariant Walked(chain[..i], implicit, excludes, includes, resolved)
    {
      var current := chain[i];
      WalkStep(chain[..i], current, implicit, excludes, includes, resolved);
      var forced, resolvedByForce := Settle(current.forceIncluded, resolved);
      var excluded, resolvedByBoth := Settle(current.excluded, resolvedByForce);
      includes, excludes, resolved := includes + forced, excludes + excluded, resolvedByBoth;
      implicit := implicit + set k | k in current.included;
      assert chain[..i + 1] == chain[..i] + [current];
    }
    assert chain[..|chain|] == chain;
    result := (implicit + includes) - excludes;
  }

  lemma WalkStep(chain: seq<Level>, l: Level, implicit: set<string>, excludes: set<string>, includes: set<string>,
                 resolved: set<string>)
    requires Walked(chain, implicit, excludes, includes, resolved)
    ensures
      var forced := set k | k in l.forceIncluded;
      var excluded := set k | k in l.excluded;
      var declared := set k | k in l.included;
      Walked(chain + [l], implicit + declared, excludes + (excluded - (resolved + forced)),
             includes + (forced - resolved), resolved + forced + excluded)
  {
    forall k ensures Declared(chain + [l], k) <==> Declared(chain, k) || k in l.included {
      if i :| 0 <= i < |chain| && k in chain[i].included {
        assert k in (chain + [l])[i].included;
      }
      assert (chain + [l])[|chain|] == l;
    }
    forall k {
      NearestExtends(chain, l, k);
    }
  }

  // ---- what the rule means ----

  /** A class re-enables the key, and none below it excludes it. */
  ghost predicate Reenabled(chain: seq<Level>, key: string, i: nat) {
    i < |chain| && key in chain[i].forceIncluded && forall j :: 0 <= j < i ==> key !in chain[j].excluded
  }

  /** Some class declares the key, and no class excludes it or re-enables it. */
  ghost predicate MerelyDeclared(chain: seq<Level>, key: string) {
    (exists i :: 0 <= i < |chain| && key in chain[i].included) &&
    forall i :: 0 <= i < |chain| ==> key !in chain[i].excluded && key !in chain[i].forceIncluded
  }

  lemma {:induction false} NearestExactly(chain: seq<Level>, key: string)
    ensures Nearest(chain, key) == Some(true) <==> exists i: nat :: Reenabled(chain, key, i)
    ensures Nearest(chain, key) == None <==>
      forall i :: 0 <= i < |chain| ==> key !in chain[i].excluded && key !in chain[i].forceIncluded
  {
    if chain != [] {
      var rest := chain[1..];
      NearestExactly(rest, key);
      assert forall i :: 0 < i < |chain| ==> chain[i] == rest[i - 1];
      assert forall i :: 0 <= i < |rest| ==> rest[i] == chain[i + 1];
      if key in chain[0].forceIncluded {
        assert Reenabled(chain, key, 0);
      } else if key in chain[0].excluded {
        assert forall i: nat :: !Reenabled(chain, key, i);
      } else {
        if i: nat :| Reenabled(rest, key, i) {
          assert Reenabled(chain, key, i + 1);
        }
        if i: nat :| Reenabled(chain, key, i) {
          assert Reenabled(rest, key, i - 1);
        }
      }
    }
  }

  /** A key is whitelisted exactly if it is re-enabled below every exclusion, or declared with nothing said about it. */
  lemma KeysExactly(chain: seq<Level>, key: string)
    ensures key in UnifiedKeys(chain) <==> (exists i: nat :: Reenabled(chain, key, i)) || MerelyDeclared(chain, key)
  {
    NearestExactly(chain, key);
  }

  // ---- what it means for subclasses ----

  /** Declaring a field again in a subclass, without more, changes nothing about keys with an explicit setting. */
  lemma RedeclarationNeverRevives(chain: seq<Level>, declared: seq<string>, key: string)
    requires Nearest(chain, key) == Some(false)
    ensures key !in UnifiedKeys([Level(declared, [], [])] + chain)
  {
    var sub := Level(declared, [], []);
    assert ([sub] + chain)[1..] == chain;
    assert Nearest([sub] + chain, key) == Nearest(chain, key);
  }

  /** An explicit setting of the subclass decides, whatever its ancestors say. */
  lemma SubclassDecides(chain: seq<Level>, sub: Level, key: string)
    requires Setting(sub, key).Some?
    ensures key in UnifiedKeys([sub] + chain) <==> key in sub.forceIncluded
  {
    assert Nearest([sub] + chain, key) == Setting(sub, key);
  }

  /** Without explicit settings a subclass only adds what it declares. */
  lemma SubclassAdds(chain: seq<Level>, declared: seq<string>, key: string)
    ensures key in UnifiedKeys([Level(declared, [], [])] + chain) <==>
      key in UnifiedKeys(chain) || (key in declared && Nearest(chain, key).None?)
  {
    var sub := Level(declared, [], []);
    var all := [sub] + chain;
    assert all[1..] == chain;
    assert Declared(all, key) <==> key in declared || Declared(chain, key) by {
      if i :| 0 <= i < |chain| && key in chain[i].included {
        assert key in all[i + 1].included;
      }
      assert all[0] == sub;
    }
  }
}

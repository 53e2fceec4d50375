/** The dependency downgrade of the commit planner (modules/store/src/commit_planner.cpp): a group may stay a delta
    only while every candidate group it depends on does. */
module Downgrade {

  /** No member depends on a candidate outside the set. */
  ghost predicate IsClosed(candidates: seq<string>, deps: map<string, seq<string>>, s: set<string>) {
    forall name, dep :: name in s && name in deps && dep in deps[name] && dep in candidates ==> dep in s
  }

  /** s is the greatest closed subset of `initial`. */
  ghost predicate IsGreatest(candidates: seq<string>, deps: map<string, seq<string>>, initial: set<string>,
      s: set<string>) {
    && s <= initial && IsClosed(candidates, deps, s)
    && forall t :: t <= initial && IsClosed(candidates, deps, t) ==> t <= s
  }

  /** There is at most one. */
  lemma GreatestIsUnique(a: seq<string>, b: seq<string>, deps: map<string, seq<string>>, initial: set<string>,
      s: set<string>, t: set<string>)
    requires (forall name :: name in a <==> name in b) && IsGreatest(a, deps, initial, s)
        && IsGreatest(b, deps, initial, t)
    ensures s == t
  {
    assert IsClosed(a, deps, t) && IsClosed(b, deps, s);
  }

  /** Does some candidate this group depends on have to be stored full? */
  method Blocked(candidates: seq<string>, deps: seq<string>, delta: set<string>) returns (b: bool)
    ensures b <==> exists dep :: dep in deps && dep in candidates && dep !in delta
  {
    var i := 0;
    while i < |deps|
      invariant 0 <= i <= |deps| && forall dep :: dep in deps[..i] ==> dep !in candidates || dep in delta
    {
      if deps[i] in candidates && deps[i] !in delta {
        return true;
      }
      assert deps[..i + 1] == deps[..i] + [deps[i]];
      i := i + 1;
    }
    assert deps[..i] == deps;
    return false;
  }

  method OnePass(candidates: seq<string>, deps: map<string, seq<string>>, before: set<string>)
      returns (delta: set<string>, changed: bool)
    requires forall name :: name in candidates ==> name in deps
    requires forall name :: name in before ==> name in candidates
    ensures delta <= before && (changed ==> delta < before)
        && (!changed ==> delta == before && IsClosed(candidates, deps, delta))
    ensures forall t :: t <= before && IsClosed(candidates, deps, t) ==> t <= delta
  {
    delta, changed := before, false;
    var i := 0;
    while i < |candidates|
      invariant 0 <= i <= |candidates| && delta <= before && (changed ==> delta < before)
          && (!changed ==> delta == before)
      invariant !changed ==>
          forall name, dep :: name in candidates[..i] && name in delta && dep in deps[name] && dep in candidates ==>
          dep in delta
      invariant forall t :: t <= before && IsClosed(candidates, deps, t) ==> t <= delta
    {
      var name := candidates[i];
      assert candidates[..i + 1] == candidates[..i] + [name];
      if name in delta {
        var blocked := Blocked(candidates, deps[name], delta);
        if blocked {
          delta, changed := delta - {name}, true;
        }
      }
      i := i + 1;
    }
    assert candidates[..i] == candidates;
  }

  /** The loop ends with the greatest closed subset of the groups first decided to be deltas, in whatever order the
      candidates are visited. */
  method DowngradeAll(candidates: seq<string>, deps: map<string, seq<string>>, initial: set<string>)
      returns (delta: set<string>)
    requires forall name :: name in candidates ==> name in deps
    requires forall name :: name in initial ==> name in candidates
    ensures IsGreatest(candidates, deps, initial, delta)
  {
    delta := initial;
    var changed := true;
    while changed
      invariant delta <= initial && (!changed ==> IsClosed(candidates, deps, delta))
      invariant forall t :: t <= initial && IsClosed(candidates, deps, t) ==> t <= delta
      decreases |delta|, changed
    {
      ghost var was := delta;
      delta, changed := OnePass(candidates, deps, delta);
      if changed {
        Shrinks(delta, was);
      }
    }
  }

  lemma Shrinks(a: set<string>, b: set<string>)
    requires a < b
    ensures |a| < |b|
  {
    var x :| x in b && x !in a;
    assert a <= b - {x};
    Subset(a, b - {x});
  }

  lemma {:induction false} Subset(a: set<string>, b: set<string>)
    requires a <= b
    ensures |a| <= |b|
  {
    if a != {} {
      var x :| x in a;
      Subset(a - {x}, b - {x});
    }
  }
}

// What the intrusive lists stand for: a family of duplicate-free sequences in
// which a node occurs at most once. list_remove is not told which list a node
// is on, so Delete takes it out of whichever list holds it.
module ListSpec {

  type Lists = seq<seq<nat>>

  ghost predicate NoDup(s: seq<nat>) {
    forall i, j :: 0 <= i < j < |s| ==> s[i] != s[j]
  }

  function Without(s: seq<nat>, x: nat): (r: seq<nat>)
  {
    if s == [] then [] else if s[0] == x then s[1..] else [s[0]] + Without(s[1..], x)
  }

  function Delete(lists: Lists, x: nat): (r: Lists)
  {
    seq(|lists|, j requires 0 <= j < |lists| => Without(lists[j], x))
  }

  function Push(lists: Lists, k: nat, x: nat): (r: Lists)
    requires k < |lists|
  {
    lists[k := [x] + lists[k]]
  }

  lemma {:induction false} WithoutMembers(s: seq<nat>, x: nat)
    requires NoDup(s)
    ensures NoDup(Without(s, x))
    ensures forall y :: y in Without(s, x) <==> y in s && y != x
    ensures |Without(s, x)| == if x in s then |s| - 1 else |s|
  {
    if s != [] && s[0] != x {
      NoDupTail(s);
      WithoutMembers(s[1..], x);
      assert s == [s[0]] + s[1..];
      NoDupCons(s[0], Without(s[1..], x));
    } else if s != [] {
      assert s == [s[0]] + s[1..];
    }
  }

  lemma NoDupTail(s: seq<nat>)
    requires NoDup(s) && s != []
    ensures NoDup(s[1..]) && s[0] !in s[1..]
  {
  }

  lemma NoDupCons(x: nat, s: seq<nat>)
    requires NoDup(s) && x !in s
    ensures NoDup([x] + s)
  {
  }

  lemma {:induction false} WithoutAbsent(s: seq<nat>, x: nat)
    requires x !in s
    ensures Without(s, x) == s
  {
    if s != [] {
      WithoutAbsent(s[1..], x);
    }
  }

  lemma {:induction false} WithoutAt(s: seq<nat>, i: nat)
    requires NoDup(s) && i < |s|
    ensures Without(s, s[i]) == s[..i] + s[i + 1..]
  {
    if i > 0 {
      NoDupTail(s);
      WithoutAt(s[1..], i - 1);
    }
  }

  lemma {:induction false} WithoutSubset(s: seq<nat>, x: nat, y: nat)
    requires y !in s
    ensures y !in Without(s, x)
  {
    if s != [] && s[0] != x {
      WithoutSubset(s[1..], x, y);
    }
  }

  lemma {:induction false} WithoutElements(s: seq<nat>, x: nat)
    ensures forall i :: 0 <= i < |Without(s, x)| ==> Without(s, x)[i] in s
  {
    if s != [] && s[0] != x {
      WithoutElements(s[1..], x);
    }
  }
}

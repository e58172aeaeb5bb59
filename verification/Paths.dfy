/** Clockwise paths along successor pointers, and what a pointer change does to them. */
module Paths {
  import opened Ring

  type Links = map<Id, Id>

  /** The node that x points to. */
  ghost function Follow(succ: Links, x: Id): Id
    requires x in succ
  {
    succ[x]
  }

  /** Pointers stay among the members. */
  ghost predicate Closed(succ: Links) {
    forall x {:trigger Follow(succ, x)} :: x in succ ==> Follow(succ, x) in succ
  }

  /** Following successors clockwise from x arrives at t and never passes it. */
  ghost predicate Reaches(succ: Links, x: Id, t: Id)
    decreases Dist(x, t)
  {
    x == t ||
    (x in succ && Hop(x, Follow(succ, x)) <= Dist(x, t) && Reaches(succ, Follow(succ, x), t))
  }

  /** p is a member other than s from which the pointers lead clockwise to s. */
  ghost predicate Behind(succ: Links, p: Id, s: Id) {
    p in succ && s in succ && p != s && Reaches(succ, p, s)
  }

  /** Going round from o returns to o after exactly one turn. */
  ghost predicate Winds(succ: Links, o: Id) {
    o in succ && Reaches(succ, Follow(succ, o), o)
  }

  /** Pointing a at c instead of its successor is a shorter hop that skips nothing:
      c itself leads back to the old successor. */
  ghost predicate Refines(succ: Links, a: Id, c: Id) {
    a in succ && c in succ && Hop(a, c) < Hop(a, Follow(succ, a)) && Reaches(succ, c, Follow(succ, a))
  }

  /** The node k pointers after x. */
  ghost function Iter(succ: Links, x: Id, k: nat): (y: Id)
    requires Closed(succ) && x in succ
    ensures y in succ
    decreases k
  {
    if k == 0 then x else Iter(succ, Follow(succ, x), k - 1)
  }

  /** Clockwise length of the walk of k pointers from x. */
  ghost function Length(succ: Links, x: Id, k: nat): nat
    requires Closed(succ) && x in succ
    decreases k
  {
    if k == 0 then 0 else Hop(x, Follow(succ, x)) + Length(succ, Follow(succ, x), k - 1)
  }

  ghost predicate Leads(succ: Links, x: Id, y: Id)
    requires Closed(succ)
  {
    x in succ && exists k: nat :: Iter(succ, x, k) == y
  }

  lemma {:induction false} ReachesTrans(succ: Links, x: Id, m: Id, t: Id)
    requires Reaches(succ, x, m) && Reaches(succ, m, t)
    requires Dist(x, m) <= Dist(x, t)
    ensures Reaches(succ, x, t)
    decreases Dist(x, m)
  {
    if x != m {
      ReachesTrans(succ, Follow(succ, x), m, t);
    }
  }

  /** A path that ends at a, or lies strictly between a and its target, does not use a's pointer. */
  lemma {:induction false} ReachesAvoiding(succ: Links, x: Id, t: Id, a: Id, c: Id)
    requires Reaches(succ, x, t)
    requires t == a || Dist(x, t) < Dist(a, t)
    ensures Reaches(succ[a := c], x, t)
    decreases Dist(x, t)
  {
    if x != t {
      ReachesAvoiding(succ, Follow(succ, x), t, a, c);
    }
  }

  lemma RefinedTail(succ: Links, a: Id, c: Id)
    requires Refines(succ, a, c)
    ensures Reaches(succ[a := c], c, Follow(succ, a))
  {
    ReachesAvoiding(succ, c, Follow(succ, a), a, c);
  }

  lemma {:induction false} RefineKeepsReaches(succ: Links, a: Id, c: Id, x: Id, t: Id)
    requires Refines(succ, a, c) && Reaches(succ, x, t)
    ensures Reaches(succ[a := c], x, t)
    decreases Dist(x, t)
  {
    if x != t {
      RefineKeepsReaches(succ, a, c, Follow(succ, x), t);
      if x == a {
        RefinedTail(succ, a, c);
        ReachesTrans(succ[a := c], c, Follow(succ, a), t);
      }
    }
  }

  lemma RefineKeepsWinds(succ: Links, a: Id, c: Id, o: Id)
    requires Refines(succ, a, c) && Winds(succ, o)
    ensures Winds(succ[a := c], o)
  {
    RefineKeepsReaches(succ, a, c, Follow(succ, o), o);
    if a == o {
      RefinedTail(succ, a, c);
      ReachesTrans(succ[a := c], c, Follow(succ, a), o);
    }
  }

  lemma {:induction false} IterAdd(succ: Links, x: Id, j: nat, k: nat)
    requires Closed(succ) && x in succ
    ensures Iter(succ, x, j + k) == Iter(succ, Iter(succ, x, j), k)
    ensures Length(succ, x, j + k) == Length(succ, x, j) + Length(succ, Iter(succ, x, j), k)
    decreases j
  {
    if j > 0 {
      IterAdd(succ, Follow(succ, x), j - 1, k);
    }
  }

  /** A clockwise path is a walk whose length is the clockwise distance. */
  lemma {:induction false} ReachesWalk(succ: Links, x: Id, t: Id) returns (k: nat)
    requires Closed(succ) && x in succ && Reaches(succ, x, t)
    ensures Iter(succ, x, k) == t && Length(succ, x, k) == Dist(x, t)
    ensures forall j: nat :: j < k ==> Iter(succ, x, j) != t
    decreases Dist(x, t)
  {
    if x == t {
      k := 0;
    } else {
      var k0 := ReachesWalk(succ, Follow(succ, x), t);
      k := k0 + 1;
      forall j: nat | j < k ensures Iter(succ, x, j) != t {
        if j > 0 { assert Iter(succ, x, j) == Iter(succ, Follow(succ, x), j - 1); }
      }
    }
  }

  lemma LeadsTrans(succ: Links, x: Id, y: Id, z: Id)
    requires Closed(succ) && Leads(succ, x, y) && Leads(succ, y, z)
    ensures Leads(succ, x, z)
  {
    var j: nat :| Iter(succ, x, j) == y;
    var k: nat :| Iter(succ, y, k) == z;
    IterAdd(succ, x, j, k);
  }

  lemma PutClosed(succ: Links, a: Id, c: Id)
    requires Closed(succ) && c in succ
    ensures Closed(succ[a := c])
  {
    var succ' := succ[a := c];
    forall x | x in succ' ensures Follow(succ', x) in succ' {
      assert x != a ==> Follow(succ', x) == Follow(succ, x);
    }
  }

  /** Whatever x led to, it still leads to after the pointer of a is refined to c. */
  lemma {:induction false} RefineKeepsLeads(succ: Links, a: Id, c: Id, x: Id, k: nat)
    requires Closed(succ) && Refines(succ, a, c) && x in succ
    ensures Closed(succ[a := c]) && Leads(succ[a := c], x, Iter(succ, x, k))
    decreases k
  {
    var succ' := succ[a := c];
    PutClosed(succ, a, c);
    if k == 0 {
      assert Iter(succ', x, 0) == x;
    } else {
      RefineKeepsLeads(succ, a, c, Follow(succ, x), k - 1);
      if x == a {
        RefinedTail(succ, a, c);
        var j := ReachesWalk(succ', c, Follow(succ, a));
        LeadsTrans(succ', c, Follow(succ, a), Iter(succ, x, k));
      }
      LeadsStep(succ', x, Iter(succ, x, k));
    }
  }

  lemma LeadsStep(succ: Links, x: Id, y: Id)
    requires Closed(succ) && x in succ && Leads(succ, Follow(succ, x), y)
    ensures Leads(succ, x, y)
  {
    var k: nat :| Iter(succ, Follow(succ, x), k) == y;
    assert Iter(succ, x, k + 1) == y;
  }

  /** A newcomer n that points at an existing member disturbs no existing path. */
  lemma {:induction false} GrowKeepsReaches(succ: Links, n: Id, c: Id, x: Id, t: Id)
    requires Closed(succ) && n !in succ && x in succ && Reaches(succ, x, t)
    ensures Reaches(succ[n := c], x, t)
    decreases Dist(x, t)
  {
    if x != t {
      GrowKeepsReaches(succ, n, c, Follow(succ, x), t);
    }
  }

  lemma {:induction false} GrowKeepsIter(succ: Links, n: Id, c: Id, x: Id, k: nat)
    requires Closed(succ) && n !in succ && c in succ && x in succ
    ensures Closed(succ[n := c]) && Iter(succ[n := c], x, k) == Iter(succ, x, k)
    decreases k
  {
    PutClosed(succ, n, c);
    if k > 0 {
      GrowKeepsIter(succ, n, c, Follow(succ, x), k - 1);
    }
  }
}

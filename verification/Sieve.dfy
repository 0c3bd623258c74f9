/** The sequential sieve that the pipeline of primer.c spreads over processes. */
module Sieve {
  import opened Common

  predicate Divides(d: int, n: int) { d > 0 && n % d == 0 }

  /** The numbers of s that p does not divide, in order. */
  function Sieved(p: int, s: seq<int>): seq<int> {
    if s == [] then []
    else
      var n := s[|s| - 1];
      Sieved(p, s[..|s| - 1]) + if Divides(p, n) then [] else [n]
  }

  ghost predicate Ascending(s: seq<int>) { forall i, j :: 0 <= i < j < |s| ==> s[i] < s[j] }

  /** The numbers from 2 to b. */
  function Upto(b: int): seq<int> {
    if b < 2 then [] else Upto(b - 1) + [b]
  }

  /** What is left of 2..b after k rounds, each dividing by the first number left. */
  function Level(k: nat, b: int): seq<int> {
    if k == 0 then Upto(b)
    else
      var s := Level(k - 1, b);
      if s == [] then [] else Sieved(s[0], s[1..])
  }

  ghost predicate IsPrime(n: int) { n >= 2 && forall d :: 2 <= d < n ==> !Divides(d, n) }

  /** The primes below n in ascending order. */
  ghost function PrimesBelow(n: int): seq<int>
    decreases n
  {
    if n <= 2 then [] else PrimesBelow(n - 1) + if IsPrime(n - 1) then [n - 1] else []
  }

  lemma {:induction false} UptoMembers(b: int)
    ensures Ascending(Upto(b)) && forall n :: n in Upto(b) <==> 2 <= n <= b
    decreases b
  {
    if b >= 2 {
      UptoMembers(b - 1);
      var s := Upto(b - 1);
      forall i | 0 <= i < |s| ensures s[i] < b { assert s[i] in s; }
    }
  }

  lemma {:induction false} SievedMembers(p: int, s: seq<int>)
    ensures forall n :: n in Sieved(p, s) <==> n in s && !Divides(p, n)
  {
    if s != [] {
      SievedMembers(p, s[..|s| - 1]);
      assert s == s[..|s| - 1] + [s[|s| - 1]];
    }
  }

  lemma {:induction false} SievedAscending(p: int, s: seq<int>)
    requires Ascending(s)
    ensures Ascending(Sieved(p, s))
  {
    if s != [] {
      var t := s[..|s| - 1];
      SievedAscending(p, t);
      SievedMembers(p, t);
      var r := Sieved(p, t);
      forall i | 0 <= i < |r| ensures r[i] < s[|s| - 1] { assert r[i] in r && r[i] in t; }
    }
  }

  /** Sieving more of the input only adds at the end. */
  lemma {:induction false} SievedPrefix(p: int, s: seq<int>, t: seq<int>)
    requires s <= t
    ensures Sieved(p, s) <= Sieved(p, t)
    decreases |t|
  {
    if s != t {
      assert s <= t[..|t| - 1];
      SievedPrefix(p, s, t[..|t| - 1]);
    } else {
      assert s == t;
    }
  }

  /** Not struck out in the first k rounds. */
  ghost predicate Left(k: nat, b: int, n: int) {
    2 <= n <= b && forall j: nat {:trigger Level(j, b)} :: j < k ==> Level(j, b) != [] && !Divides(Level(j, b)[0], n)
  }

  lemma {:induction false} LevelMembers(k: nat, b: int)
    ensures Ascending(Level(k, b)) && forall n :: n in Level(k, b) <==> Left(k, b, n)
  {
    UptoMembers(b);
    if k > 0 {
      LevelMembers(k - 1, b);
      var s := Level(k - 1, b);
      if s != [] {
        SievedMembers(s[0], s[1..]);
        SievedAscending(s[0], s[1..]);
        assert s == [s[0]] + s[1..];
        assert s[0] in s && Left(k - 1, b, s[0]);
        assert Divides(s[0], s[0]);
        hide Divides, Ascending;
        forall n ensures n in Level(k, b) <==> Left(k, b, n) { LeftMore(k, b, n); }
      }
    }
  }

  lemma LeftMore(k: nat, b: int, n: int)
    requires k > 0 && Level(k - 1, b) != []
    ensures Left(k, b, n) <==> Left(k - 1, b, n) && !Divides(Level(k - 1, b)[0], n)
  {
    hide Divides;
    if Left(k - 1, b, n) && !Divides(Level(k - 1, b)[0], n) {
      forall j: nat {:trigger Level(j, b)} | j < k ensures Level(j, b) != [] && !Divides(Level(j, b)[0], n) {
        if j < k - 1 { assert Level(j, b) != []; }
      }
    }
  }

  lemma DividesThrough(q: int, d: int, n: int)
    requires Divides(q, d) && Divides(d, n) && n >= 0
    ensures Divides(q, n)
  {
    var a, c := n / d, d / q;
    assert n == d * a && d == q * c;
    assert c * a >= 0;
    assert (q * c) * a == q * (c * a);
    MultipleMod(q, c * a);
  }

  lemma {:induction false} MultipleMod(q: int, x: nat)
    requires q > 0
    ensures (q * x) % q == 0
  {
    if x > 0 {
      MultipleMod(q, x - 1);
      ModAdd(q, q * (x - 1));
      assert q * x == q * (x - 1) + q;
    } else {
      assert q * x == 0;
    }
  }

  lemma ModAdd(q: int, y: int)
    requires q > 0 && y % q == 0
    ensures (y + q) % q == 0
  {
    var a, c, r := y / q, (y + q) / q, (y + q) % q;
    assert y == q * a && y + q == q * c + r;
    assert r == q * (a + 1 - c);
    if a + 1 - c >= 1 { Scale(q, a + 1 - c); }
    if a + 1 - c <= -1 { Scale(q, c - a - 1); }
  }

  /** The first numbers of levels 0 to k - 1. */
  ghost function Heads(k: nat, b: int): (s: seq<int>)
    ensures |s| == k
  {
    if k == 0 then [] else Heads(k - 1, b) + [if Level(k - 1, b) == [] then 0 else Level(k - 1, b)[0]]
  }

  lemma {:induction false} HeadsAt(k: nat, b: int, j: nat)
    requires j < k
    ensures Heads(k, b)[j] == if Level(j, b) == [] then 0 else Level(j, b)[0]
  {
    if j < k - 1 { HeadsAt(k - 1, b, j); }
  }

  /** A number before the first one left at level k is divided by an earlier first number. */
  lemma Struck(k: nat, b: int, n: int) returns (j: nat)
    requires Level(k, b) != [] && 2 <= n < Level(k, b)[0]
    ensures j < k && Level(j, b) != [] && Divides(Level(j, b)[0], n)
  {
    LevelMembers(k, b);
    var s := Level(k, b);
    assert s[0] in s;
    forall i | 0 <= i < |s| ensures s[i] != n { assert i == 0 || s[0] < s[i]; }
    assert !Left(k, b, n);
    assert Left(k, b, s[0]);
    j :| 0 <= j < k && !(Level(j, b) != [] && !Divides(Level(j, b)[0], n));
  }

  /** The first number left at level k is a prime. */
  lemma HeadIsPrime(k: nat, b: int)
    requires Level(k, b) != []
    ensures IsPrime(Level(k, b)[0])
  {
    var s := Level(k, b);
    var h := s[0];
    LevelMembers(k, b);
    assert h in s && Left(k, b, h);
    forall d | 2 <= d < h ensures !Divides(d, h) {
      if Divides(d, h) {
        var j := Struck(k, b, d);
        DividesThrough(Level(j, b)[0], d, h);
      }
    }
  }

  lemma {:induction false} LevelsShrink(j: nat, k: nat, b: int)
    requires j <= k && Level(k, b) != []
    ensures Level(j, b) != [] && Level(j, b)[0] <= Level(k, b)[0] && (j < k ==> Level(j, b)[0] < Level(k, b)[0])
    decreases k - j
  {
    if j < k {
      var s, t := Level(k - 1, b), Level(k, b);
      LevelMembers(k - 1, b);
      LevelMembers(k, b);
      assert t[0] in t && Left(k, b, t[0]);
      LeftMore(k, b, t[0]);
      assert s[0] in s && Left(k - 1, b, s[0]);
      assert t[0] in s && Divides(s[0], s[0]);
      LevelsShrink(j, k - 1, b);
    }
  }

  /** The first numbers of the levels up to k are the first k + 1 primes. */
  lemma {:induction false} HeadsArePrimes(k: nat, b: int)
    requires Level(k, b) != []
    ensures Heads(k, b) == PrimesBelow(Level(k, b)[0])
    ensures Heads(k + 1, b) == PrimesBelow(Level(k, b)[0] + 1)
  {
    var h := Level(k, b)[0];
    HeadIsPrime(k, b);
    if k == 0 {
      UptoMembers(b);
      assert 2 in Upto(b) by { assert Upto(b)[0] in Upto(b); }
      assert h == 2;
    } else {
      LevelsShrink(k - 1, k, b);
      HeadsArePrimes(k - 1, b);
      NoneBetween(k, b, Level(k - 1, b)[0] + 1, h);
    }
    assert h >= 2;
  }

  lemma {:induction false} NoneBetween(k: nat, b: int, lo: int, hi: int)
    requires k > 0 && Level(k, b) != [] && Level(k - 1, b) != []
    requires Level(k - 1, b)[0] + 1 == lo <= hi <= Level(k, b)[0] && lo > 2
    ensures PrimesBelow(hi) == PrimesBelow(lo)
    decreases hi
  {
    if lo < hi {
      hide Divides, Level;
      NoneBetween(k, b, lo, hi - 1);
      var n := hi - 1;
      var j := Struck(k, b, n);
      LevelsShrink(j, k - 1, b);
      HeadIsPrime(j, b);
      assert !IsPrime(n);
    }
  }

  /** Membership told by the primes themselves. */
  lemma LevelByPrimes(k: nat, b: int, n: int)
    requires Level(k, b) != []
    ensures |PrimesBelow(Level(k, b)[0])| == k
    ensures n in Level(k, b) <==> 2 <= n <= b && forall p :: p in PrimesBelow(Level(k, b)[0]) ==> !Divides(p, n)
  {
    HeadsArePrimes(k, b);
    LevelMembers(k, b);
    var ps := Heads(k, b);
    forall j: nat | j < k ensures Level(j, b) != [] && ps[j] == Level(j, b)[0] {
      LevelsShrink(j, k, b);
      HeadsAt(k, b, j);
    }
    if 2 <= n <= b && forall p :: p in ps ==> !Divides(p, n) {
      forall j: nat {:trigger Level(j, b)} | j < k ensures Level(j, b) != [] && !Divides(Level(j, b)[0], n) {
        assert ps[j] in ps;
      }
    }
    if n in Level(k, b) {
      forall p | p in ps ensures !Divides(p, n) {
        var j: nat :| j < k && ps[j] == p;
        assert Level(j, b) != [];
      }
    }
  }
}

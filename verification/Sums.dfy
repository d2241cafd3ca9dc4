/** Totals over finite sets of subject codes. */
module Sums {

  // Dictionary order, which makes "the first code of a set" a value.
  predicate AtMost(a: string, b: string) {
    a == "" || (b != "" && (a[0] < b[0] || (a[0] == b[0] && AtMost(a[1..], b[1..]))))
  }

  lemma {:induction false} AtMostTotal(a: string, b: string)
    ensures AtMost(a, b) || AtMost(b, a)
    ensures AtMost(a, b) && AtMost(b, a) ==> a == b
  {
    if a != "" && b != "" && a[0] == b[0] {
      AtMostTotal(a[1..], b[1..]);
      assert a == [a[0]] + a[1..] && b == [b[0]] + b[1..];
    }
  }

  lemma {:induction false} AtMostTransitive(a: string, b: string, c: string)
    requires AtMost(a, b) && AtMost(b, c)
    ensures AtMost(a, c)
  {
    if a != "" && a[0] == b[0] == c[0] {
      AtMostTransitive(a[1..], b[1..], c[1..]);
    }
  }

  predicate IsFirst(c: string, s: set<string>) {
    c in s && forall d :: d in s ==> AtMost(c, d)
  }

  lemma {:induction false} FirstExists(s: set<string>) returns (c: string)
    requires s != {}
    ensures IsFirst(c, s)
    decreases |s|
  {
    c :| c in s;
    AtMostTotal(c, c);
    if s != {c} {
      var d := FirstExists(s - {c});
      AtMostTotal(c, d);
      if AtMost(c, d) {
        forall e | e in s ensures AtMost(c, e) {
          if e != c {
            AtMostTransitive(c, d, e);
          }
        }
      } else {
        c := d;
      }
    }
  }

  lemma SomeFirst(s: set<string>)
    requires s != {}
    ensures exists c :: IsFirst(c, s)
  {
    var c := FirstExists(s);
  }

  lemma FirstIsUnique(s: set<string>)
    ensures forall c, d :: IsFirst(c, s) && IsFirst(d, s) ==> c == d
  {
    forall c, d | IsFirst(c, s) && IsFirst(d, s) ensures c == d {
      AtMostTotal(c, d);
    }
  }

  function First(s: set<string>): (c: string)
    requires s != {}
    ensures c in s
  {
    SomeFirst(s);
    FirstIsUnique(s);
    var c :| c in s && IsFirst(c, s);
    c
  }

  function SumOver(s: set<string>, f: string -> int): int {
    if s == {} then 0
    else
      var c := First(s);
      f(c) + SumOver(s - {c}, f)
  }

  lemma {:induction false} SumRemove(s: set<string>, f: string -> int, c: string)
    requires c in s
    ensures SumOver(s, f) == f(c) + SumOver(s - {c}, f)
    decreases |s|
  {
    var d := First(s);
    if d != c {
      SumRemove(s - {d}, f, c);
      SumRemove(s - {c}, f, d);
      assert s - {d} - {c} == s - {c} - {d};
    }
  }

  lemma SumInsert(s: set<string>, f: string -> int, c: string)
    requires c !in s
    ensures SumOver(s + {c}, f) == f(c) + SumOver(s, f)
  {
    SumRemove(s + {c}, f, c);
    assert s + {c} - {c} == s;
  }

  // A total over a larger set is larger, when the members of that set count for something.
  lemma {:induction false} SumMonotone(s: set<string>, t: set<string>, f: string -> int)
    requires s <= t
    requires forall c :: c in t ==> 0 <= f(c)
    ensures 0 <= SumOver(s, f) <= SumOver(t, f)
    decreases |t|
  {
    if t != {} {
      var c :| c in t;
      SumRemove(t, f, c);
      if c in s {
        SumRemove(s, f, c);
      } else {
        assert s - {c} == s;
      }
      SumMonotone(s - {c}, t - {c}, f);
    }
  }

  lemma {:induction false} SumAgree(s: set<string>, f: string -> int, g: string -> int)
    requires forall c :: c in s ==> f(c) == g(c)
    ensures SumOver(s, f) == SumOver(s, g)
    decreases |s|
  {
    if s != {} {
      var c :| c in s;
      SumRemove(s, f, c);
      SumRemove(s, g, c);
      SumAgree(s - {c}, f, g);
    }
  }
}

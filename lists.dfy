/** The few Ruby Array operations the build command relies on, with the
    meaning Ruby gives them: `select`, `-`, `&` and `uniq`. */
module Lists {

  datatype Option<+T> = None | Some(value: T)

  /** No element occurs twice. */
  predicate NoDups<T(==)>(s: seq<T>) {
    forall i, j :: 0 <= i < j < |s| ==> s[i] != s[j]
  }

  /** `Array#select`: the elements satisfying `p`, in their original order. */
  function Select<T(==,!new)>(s: seq<T>, p: T -> bool): (r: seq<T>)
    ensures |r| <= |s|
    ensures forall x :: x in r <==> x in s && p(x)
  {
    if s == [] then []
    else
      assert s == [s[0]] + s[1..];
      if p(s[0]) then [s[0]] + Select(s[1..], p) else Select(s[1..], p)
  }

  /** Selecting with a test every element passes changes nothing. */
  lemma {:induction false} SelectKeepsAll<T(!new)>(s: seq<T>, p: T -> bool)
    ensures (forall x :: x in s ==> p(x)) ==> Select(s, p) == s
  {
    if s != [] && forall x :: x in s ==> p(x) {
      SelectKeepsAll(s[1..], p);
    }
  }

  /** Selecting never introduces a duplicate. */
  lemma {:induction false} SelectNoDups<T(!new)>(s: seq<T>, p: T -> bool)
    ensures NoDups(s) ==> NoDups(Select(s, p))
  {
    if s != [] && NoDups(s) {
      forall i, j | 0 <= i < j < |s[1..]| ensures s[1..][i] != s[1..][j] {
        assert s[1..][i] == s[i + 1] && s[1..][j] == s[j + 1];
      }
      forall j | 0 <= j < |s[1..]| ensures s[1..][j] != s[0] {
        assert s[1..][j] == s[j + 1];
      }
      SelectNoDups(s[1..], p);
    }
  }

  lemma {:induction false} SelectAppend<T(!new)>(a: seq<T>, b: seq<T>, p: T -> bool)
    ensures Select(a + b, p) == Select(a, p) + Select(b, p)
  {
    if a == [] {
      assert a + b == b;
    } else {
      assert (a + b)[0] == a[0] && (a + b)[1..] == a[1..] + b;
      SelectAppend(a[1..], b, p);
    }
  }

  lemma SelectSingle<T(!new)>(x: T, p: T -> bool)
    ensures Select([x], p) == if p(x) then [x] else []
  {
    assert [x][1..] == [];
  }

  /** A sequence in which nothing occurs is empty. */
  lemma NoMembersMeansEmpty<T>(s: seq<T>)
    ensures (forall x :: x !in s) ==> s == []
  {
    if s != [] {
      assert s[0] in s;
    }
  }

  /** `a - b`: every element of `a` that does not occur in `b`, in order. */
  function Difference<T(==,!new)>(a: seq<T>, b: seq<T>): (r: seq<T>)
    ensures |r| <= |a|
    ensures forall x :: x in r <==> x in a && x !in b
    ensures NoDups(a) ==> NoDups(r) && OrderedIn(r, a)
  {
    var test := x => x !in b;
    SelectNoDups(a, test);
    SelectOrdered(a, test);
    Select(a, test)
  }

  /** `Array#uniq`: the first occurrence of every element, in first-seen order. */
  function Uniq<T(==,!new)>(s: seq<T>): (r: seq<T>)
    ensures NoDups(r)
    ensures |r| <= |s|
    ensures forall x :: x in r <==> x in s
    decreases |s|
  {
    if s == [] then []
    else
      var init := s[..|s| - 1];
      assert s == init + [s[|s| - 1]];
      var u := Uniq(init);
      if s[|s| - 1] in u then u else u + [s[|s| - 1]]
  }

  /** `uniq.first` is the first element. */
  lemma {:induction false} UniqHead<T(!new)>(s: seq<T>)
    ensures s != [] ==> Uniq(s) != [] && Uniq(s)[0] == s[0]
    decreases |s|
  {
    if |s| > 1 {
      var init := s[..|s| - 1];
      UniqHead(init);
      assert init[0] == s[0];
    }
  }

  /** The position where `x` first occurs in `s`. */
  function FirstIndex<T(==)>(s: seq<T>, x: T): (k: nat)
    requires x in s
    ensures k < |s| && s[k] == x
    ensures forall j :: 0 <= j < k ==> s[j] != x
  {
    if s[0] == x then 0 else 1 + FirstIndex(s[1..], x)
  }

  /** `uniq` keeps the elements in the order of their first occurrence. */
  lemma {:induction false} UniqFirstSeen<T(!new)>(s: seq<T>, i: nat, j: nat)
    requires i < j < |Uniq(s)|
    ensures Uniq(s)[i] in s && Uniq(s)[j] in s
    ensures FirstIndex(s, Uniq(s)[i]) < FirstIndex(s, Uniq(s)[j])
  {
    var n := |s|;
    var init := s[..n - 1];
    var u := Uniq(init);
    var r := Uniq(s);
    assert s == init + [s[n - 1]];
    FirstIndexOfPrefix(s, init, r[i]);
    if j < |u| {
      UniqFirstSeen(init, i, j);
      FirstIndexOfPrefix(s, init, r[j]);
    } else {
      assert r == u + [s[n - 1]] && r[j] == s[n - 1] && s[n - 1] !in init;
    }
  }

  lemma FirstIndexOfPrefix<T(!new)>(s: seq<T>, init: seq<T>, x: T)
    requires init <= s && x in init
    ensures x in s && FirstIndex(s, x) == FirstIndex(init, x)
  {
    var k := FirstIndex(init, x);
    assert s[k] == x;
  }

  /** Every element of `r` occurs in `s`, and the elements of `r` come in
      the order of their first occurrences in `s`. */
  predicate OrderedIn<T(==)>(r: seq<T>, s: seq<T>) {
    && (forall x :: x in r ==> x in s)
    && forall i, j :: 0 <= i < j < |r| ==> FirstIndex(s, r[i]) < FirstIndex(s, r[j])
  }

  /** Behind its first element, a list without duplicates finds every
      other element one place later than its tail does. */
  lemma FirstIndexOfTail<T(!new)>(s: seq<T>, x: T)
    requires s != [] && NoDups(s) && x in s[1..]
    ensures x in s && x != s[0] && FirstIndex(s, x) == 1 + FirstIndex(s[1..], x)
  {
    var k :| 0 <= k < |s[1..]| && s[1..][k] == x;
    assert s[k + 1] == x;
  }

  /** `select` keeps the order of a list without duplicates. */
  lemma {:induction false} SelectOrdered<T(!new)>(s: seq<T>, p: T -> bool)
    ensures NoDups(s) ==> OrderedIn(Select(s, p), s)
  {
    if s != [] && NoDups(s) {
      var t := s[1..];
      forall i, j | 0 <= i < j < |t| ensures t[i] != t[j] {
        assert t[i] == s[i + 1] && t[j] == s[j + 1];
      }
      SelectOrdered(t, p);
      OrderedInTail(Select(t, p), s);
      if p(s[0]) {
        OrderedCons(s[0], Select(t, p), s);
      }
    }
  }

  /** A list ordered within the tail of a list without duplicates is
      ordered within the whole list, behind its first element. */
  lemma OrderedInTail<T(!new)>(r: seq<T>, s: seq<T>)
    requires s != [] && NoDups(s) && OrderedIn(r, s[1..])
    ensures OrderedIn(r, s) && forall y :: y in r ==> FirstIndex(s, y) > 0
  {
    forall y | y in r ensures y in s && FirstIndex(s, y) == 1 + FirstIndex(s[1..], y) {
      FirstIndexOfTail(s, y);
    }
  }

  /** Putting in front an element that comes before all of an ordered list
      keeps it ordered. */
  lemma OrderedCons<T(!new)>(x: T, r: seq<T>, s: seq<T>)
    requires x in s && OrderedIn(r, s)
    requires forall y :: y in r ==> FirstIndex(s, x) < FirstIndex(s, y)
    ensures OrderedIn([x] + r, s)
  {
    var xr := [x] + r;
    forall i, j | 0 <= i < j < |xr| ensures FirstIndex(s, xr[i]) < FirstIndex(s, xr[j]) {
      assert xr[j] == r[j - 1];
      if i > 0 {
        assert xr[i] == r[i - 1];
      }
    }
  }

  /** Keeping order composes: a list ordered within one that is ordered
      within `c` is ordered within `c`. */
  lemma OrderedInTrans<T(!new)>(a: seq<T>, b: seq<T>, c: seq<T>)
    ensures OrderedIn(a, b) && OrderedIn(b, c) ==> OrderedIn(a, c)
  {
    if OrderedIn(a, b) && OrderedIn(b, c) {
      forall i, j | 0 <= i < j < |a| ensures FirstIndex(c, a[i]) < FirstIndex(c, a[j]) {
        var u := FirstIndex(b, a[i]);
        var v := FirstIndex(b, a[j]);
        assert b[u] == a[i] && b[v] == a[j];
      }
    }
  }

  /** `uniq` leaves a list without duplicates as it is. */
  lemma {:induction false} UniqOfNoDups<T(!new)>(s: seq<T>)
    requires NoDups(s)
    ensures Uniq(s) == s
  {
    if s != [] {
      var init := s[..|s| - 1];
      assert NoDups(init);
      UniqOfNoDups(init);
      assert s[|s| - 1] !in init;
      assert s == init + [s[|s| - 1]];
    }
  }

  /** `a & b`: the elements of `a` that also occur in `b`, each once. */
  function Intersect<T(==,!new)>(a: seq<T>, b: seq<T>): (r: seq<T>)
    ensures NoDups(r)
    ensures forall x :: x in r <==> x in a && x in b
  {
    Uniq(Select(a, x => x in b))
  }
}

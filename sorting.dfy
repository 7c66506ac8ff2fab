/** The `ORDER BY` of the page query: the single sort order of a `Pageable` applied to the
    matching rows before the page is cut. */
module Sorting {
  import opened Wrappers
  import opened Text
  import opened Users
  import opened Params

  /** Ascending order on a nullable number; null counts as larger than every value, so it sorts
      last ascending and first descending. */
  predicate IntOptLe(a: Option<int>, b: Option<int>) {
    b.None? || (a.Some? && a.value <= b.value)
  }

  /** Ascending order on a nullable string, by character code; null counts as the largest. */
  predicate StrOptLe(a: Option<string>, b: Option<string>) {
    b.None? || (a.Some? && StrLe(a.value, b.value))
  }

  /** `a` may precede `b` when sorting ascending on `f`. */
  predicate FieldLe(f: SortField, a: User, b: User) {
    match f
    case Id => IntOptLe(a.id, b.id)
    case Name => StrOptLe(a.name, b.name)
    case Email => StrOptLe(a.email, b.email)
    case Age => IntOptLe(a.age, b.age)
    case CreatedAt => IntOptLe(a.createdAt, b.createdAt)
    case UpdatedAt => IntOptLe(a.updatedAt, b.updatedAt)
  }

  /** `a` may precede `b` when sorting on `f` in direction `d`. */
  predicate InOrder(f: SortField, d: Direction, a: User, b: User) {
    if d == Asc then FieldLe(f, a, b) else FieldLe(f, b, a)
  }

  lemma StrOptLeTotal(a: Option<string>, b: Option<string>)
    ensures StrOptLe(a, b) || StrOptLe(b, a)
  {
    if a.Some? && b.Some? {
      StrLeTotal(a.value, b.value);
    }
  }

  lemma StrOptLeTransitive(a: Option<string>, b: Option<string>, c: Option<string>)
    requires StrOptLe(a, b) && StrOptLe(b, c)
    ensures StrOptLe(a, c)
  {
    if c.Some? {
      StrLeTransitive(a.value, b.value, c.value);
    }
  }

  /** Any two rows can be ordered. */
  lemma InOrderTotal(f: SortField, d: Direction, a: User, b: User)
    ensures InOrder(f, d, a, b) || InOrder(f, d, b, a)
  {
    match f
    case Name => StrOptLeTotal(a.name, b.name);
    case Email => StrOptLeTotal(a.email, b.email);
    case _ =>
  }

  /** The order is transitive. */
  lemma InOrderTransitive(f: SortField, d: Direction, a: User, b: User, c: User)
    requires InOrder(f, d, a, b) && InOrder(f, d, b, c)
    ensures InOrder(f, d, a, c)
  {
    match f
    case Name =>
      if d == Asc { StrOptLeTransitive(a.name, b.name, c.name); } else { StrOptLeTransitive(c.name, b.name, a.name); }
    case Email =>
      if d == Asc { StrOptLeTransitive(a.email, b.email, c.email); } else { StrOptLeTransitive(c.email, b.email, a.email); }
    case _ =>
  }

  /** Every row precedes every later row. */
  predicate Sorted(f: SortField, d: Direction, s: seq<User>) {
    forall i, j :: 0 <= i < j < |s| ==> InOrder(f, d, s[i], s[j])
  }

  /** Places `x` before the first row it may precede. */
  function Insert(f: SortField, d: Direction, x: User, s: seq<User>): (r: seq<User>)
    ensures multiset(r) == multiset(s) + multiset{x}
  {
    if s == [] then [x]
    else if InOrder(f, d, x, s[0]) then [x] + s
    else
      assert s == [s[0]] + s[1..];
      [s[0]] + Insert(f, d, x, s[1..])
  }

  /** The rows in the order the query returns them. */
  function SortRows(f: SortField, d: Direction, s: seq<User>): (r: seq<User>)
    ensures multiset(r) == multiset(s)
  {
    if s == [] then []
    else
      assert s == [s[0]] + s[1..];
      Insert(f, d, s[0], SortRows(f, d, s[1..]))
  }

  /** A sorted sequence stays sorted under a new head that may precede each of its rows. */
  lemma SortedCons(f: SortField, d: Direction, y: User, t: seq<User>)
    requires Sorted(f, d, t)
    requires forall k :: 0 <= k < |t| ==> InOrder(f, d, y, t[k])
    ensures Sorted(f, d, [y] + t)
  {
    var r := [y] + t;
    forall i, j | 0 <= i < j < |r| ensures InOrder(f, d, r[i], r[j]) {
      assert r[j] == t[j - 1];
      if i > 0 {
        assert r[i] == t[i - 1];
      }
    }
  }

  /** A row of `s` is a row of `s[1..]` or the head. */
  lemma InTail(s: seq<User>, u: User)
    requires s != [] && u in multiset(s[1..])
    ensures exists m :: 1 <= m < |s| && s[m] == u
  {
    var m :| 0 <= m < |s[1..]| && s[1..][m] == u;
    assert s[m + 1] == u;
  }

  lemma {:induction false} InsertSorted(f: SortField, d: Direction, x: User, s: seq<User>)
    requires Sorted(f, d, s)
    ensures Sorted(f, d, Insert(f, d, x, s))
  {
    if s == [] {
    } else if InOrder(f, d, x, s[0]) {
      forall k | 0 <= k < |s| ensures InOrder(f, d, x, s[k]) {
        if k > 0 {
          InOrderTransitive(f, d, x, s[0], s[k]);
        }
      }
      SortedCons(f, d, x, s);
    } else {
      InsertSorted(f, d, x, s[1..]);
      InOrderTotal(f, d, x, s[0]);
      var t := Insert(f, d, x, s[1..]);
      forall k | 0 <= k < |t| ensures InOrder(f, d, s[0], t[k]) {
        assert t[k] in multiset(t);
        if t[k] != x {
          InTail(s, t[k]);
        }
      }
      SortedCons(f, d, s[0], t);
    }
  }

  /** The rows come out sorted on the requested field and direction. */
  lemma {:induction false} SortRowsSorted(f: SortField, d: Direction, s: seq<User>)
    ensures Sorted(f, d, SortRows(f, d, s))
  {
    if s != [] {
      SortRowsSorted(f, d, s[1..]);
      InsertSorted(f, d, s[0], SortRows(f, d, s[1..]));
    }
  }

  /** Sorting keeps exactly the rows it is given, each as often: the result is a permutation. */
  lemma SortRowsPermutes(f: SortField, d: Direction, s: seq<User>)
    ensures multiset(SortRows(f, d, s)) == multiset(s)
    ensures |SortRows(f, d, s)| == |s|
    ensures forall u :: u in SortRows(f, d, s) <==> u in s
  {
    var r := SortRows(f, d, s);
    assert |r| == |multiset(r)|;
    forall u ensures u in r <==> u in s {
      assert u in r <==> u in multiset(r);
      assert u in s <==> u in multiset(s);
    }
  }

  function Named(name: string): User {
    User(None, Some(name), None, None, None, None)
  }

  lemma NameOrder()
    ensures StrLe("Jane Smith", "John Doe") && !StrLe("John Doe", "Jane Smith")
    ensures !StrLe("John Doe", "Bob Johnson") && !StrLe("Jane Smith", "Bob Johnson")
  {
    var a, j := "Jane Smith", "John Doe";
    assert a[0] == j[0] && a[1] < j[1];
    assert a[1..][0] == a[1] && j[1..][0] == j[1];
  }

  /** Sorting "John Doe", "Jane Smith" and "Bob Johnson" by name ascending and taking page 0 of
      size 2 gives "Bob Johnson" then "Jane Smith", out of two pages. */
  lemma SortByNameExample()
    ensures var sorted := SortRows(Name, Asc, [Named("John Doe"), Named("Jane Smith"), Named("Bob Johnson")]);
      PageOf(sorted, 0, 2) == [Named("Bob Johnson"), Named("Jane Smith")] && TotalPages(|sorted|, 2) == 2
  {
    var j, a, b := Named("John Doe"), Named("Jane Smith"), Named("Bob Johnson");
    SortThreeNames(j, a, b);
    FirstPageOfThree(b, a, j);
  }

  lemma FirstPageOfThree(x: User, y: User, z: User)
    ensures PageOf([x, y, z], 0, 2) == [x, y] && TotalPages(3, 2) == 2
  {
    assert [x, y, z][0..2] == [x, y];
  }

  /** Sorting three rows given in descending order of name. */
  lemma SortThreeNames(j: User, a: User, b: User)
    requires j == Named("John Doe") && a == Named("Jane Smith") && b == Named("Bob Johnson")
    ensures SortRows(Name, Asc, [j, a, b]) == [b, a, j]
  {
    NameOrder();
    var s := [j, a, b];
    assert s[1..] == [a, b];
    SortTwoNames(a, b);
    InsertLast(j, [b, a]);
  }

  lemma SortTwoNames(a: User, b: User)
    requires a == Named("Jane Smith") && b == Named("Bob Johnson")
    ensures SortRows(Name, Asc, [a, b]) == [b, a]
  {
    NameOrder();
    var s := [a, b];
    assert s[1..] == [b];
    assert SortRows(Name, Asc, [b]) == [b];
    assert Insert(Name, Asc, a, [b]) == [b, a];
  }

  lemma InsertLast(j: User, s: seq<User>)
    requires j == Named("John Doe") && s == [Named("Bob Johnson"), Named("Jane Smith")]
    ensures Insert(Name, Asc, j, s) == s + [j]
  {
    NameOrder();
    assert s[1..] == [s[1]];
    assert Insert(Name, Asc, j, [s[1]]) == [s[1], j];
  }
}

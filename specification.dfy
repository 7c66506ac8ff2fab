/** `UserSpecification`: the row predicate of `GET /api/users`, built from the optional filter
    fields of the parameters. A comparison with a null column is SQL unknown, which rejects
    the row. */
module Specification {
  import opened Wrappers
  import opened Text
  import opened Users
  import opened Params

  /** `withCreatedAtGt`: no bound accepts every row; otherwise strictly after the bound. */
  predicate WithCreatedAtGt(date: Option<Instant>, u: User) {
    match date
    case None => true
    case Some(d) => u.createdAt.Some? && u.createdAt.value > d
  }

  /** `withCreatedAtLt`: strictly before the bound. */
  predicate WithCreatedAtLt(date: Option<Instant>, u: User) {
    match date
    case None => true
    case Some(d) => u.createdAt.Some? && u.createdAt.value < d
  }

  /** `withAgeGt`: strictly older than the bound. */
  predicate WithAgeGt(ageGt: Option<int>, u: User) {
    match ageGt
    case None => true
    case Some(a) => u.age.Some? && u.age.value > a
  }

  /** `withAgeLt`: strictly younger than the bound. */
  predicate WithAgeLt(ageLt: Option<int>, u: User) {
    match ageLt
    case None => true
    case Some(a) => u.age.Some? && u.age.value < a
  }

  /** `withNameCont`: `lower(name) LIKE '%' || lower(trim(filter)) || '%'`. */
  predicate WithNameCont(name: Option<string>, u: User) {
    match name
    case None => true
    case Some(f) => u.name.Some? && Contains(ToLower(u.name.value), ToLower(Trim(f)))
  }

  /** `build`: the five field predicates chained with `and`. */
  predicate Build(p: UserParams, u: User) {
    && WithCreatedAtGt(p.createdAtGt, u)
    && WithCreatedAtLt(p.createdAtLt, u)
    && WithAgeGt(p.ageGt, u)
    && WithAgeLt(p.ageLt, u)
    && WithNameCont(p.name, u)
  }

  /** No filter field set. */
  predicate NoFilter(p: UserParams) {
    p.name.None? && p.ageGt.None? && p.ageLt.None? && p.createdAtGt.None? && p.createdAtLt.None?
  }

  /** Without any filter field, every row is accepted, including rows with null columns. */
  lemma NoFilterAcceptsAll(p: UserParams, u: User)
    requires NoFilter(p)
    ensures Build(p, u)
  {
  }

  /** Each filter field the parameters set can only reject rows: clearing it never loses a
      match, and a row fails the whole predicate exactly when it fails some set field. */
  lemma BuildIsConjunction(p: UserParams, u: User)
    ensures Build(p, u) ==> Build(p.(name := None), u) && Build(p.(ageGt := None), u)
    ensures Build(p, u) ==> Build(p.(ageLt := None), u) && Build(p.(createdAtGt := None), u)
    ensures Build(p, u) ==> Build(p.(createdAtLt := None), u)
    ensures Build(p, u) <==>
      && Build(p.(name := None, ageGt := None, ageLt := None, createdAtLt := None), u)
      && Build(p.(name := None, ageGt := None, ageLt := None, createdAtGt := None), u)
      && Build(p.(name := None, ageLt := None, createdAtGt := None, createdAtLt := None), u)
      && Build(p.(name := None, ageGt := None, createdAtGt := None, createdAtLt := None), u)
      && Build(p.(ageGt := None, ageLt := None, createdAtGt := None, createdAtLt := None), u)
  {
  }

  /** The bounds are strict: a row whose value equals a bound is rejected by it. */
  lemma BoundsAreStrict(p: UserParams, u: User)
    ensures u.age.Some? && p.ageGt == u.age ==> !Build(p, u)
    ensures u.age.Some? && p.ageLt == u.age ==> !Build(p, u)
    ensures u.createdAt.Some? && p.createdAtGt == u.createdAt ==> !Build(p, u)
    ensures u.createdAt.Some? && p.createdAtLt == u.createdAt ==> !Build(p, u)
  {
  }

  /** The rows of `rows` the predicate accepts, in their original order. */
  function Filter(p: UserParams, rows: seq<User>): (r: seq<User>)
    ensures |r| <= |rows|
    ensures forall i :: 0 <= i < |r| ==> Build(p, r[i])
  {
    if rows == [] then []
    else (if Build(p, rows[0]) then [rows[0]] else []) + Filter(p, rows[1..])
  }

  /** The filtered rows are exactly the accepted rows, each as often as in the input. */
  lemma {:induction false} FilterExact(p: UserParams, rows: seq<User>)
    ensures forall u :: u in Filter(p, rows) <==> u in rows && Build(p, u)
    ensures multiset(Filter(p, rows)) <= multiset(rows)
    ensures forall u :: Build(p, u) ==> multiset(Filter(p, rows))[u] == multiset(rows)[u]
  {
    if rows != [] {
      FilterExact(p, rows[1..]);
      assert rows == [rows[0]] + rows[1..];
    }
  }

  /** Without any filter field the query returns all rows. */
  lemma {:induction false} FilterNoFilter(p: UserParams, rows: seq<User>)
    requires NoFilter(p)
    ensures Filter(p, rows) == rows
  {
    if rows != [] {
      FilterNoFilter(p, rows[1..]);
      NoFilterAcceptsAll(p, rows[0]);
      assert rows == [rows[0]] + rows[1..];
    }
  }

  /** A user with the given age and no other columns set. */
  function AgedUser(age: int): User {
    User(None, None, None, Some(age), None, None)
  }

  /** `ageGt = 26` over ages 25, 28 and 35 keeps the two older rows. */
  lemma AgeFilterExample()
    ensures var p := Defaults().(ageGt := Some(26));
      Filter(p, [AgedUser(25), AgedUser(28), AgedUser(35)]) == [AgedUser(28), AgedUser(35)]
  {
    var p := Defaults().(ageGt := Some(26));
    var rows := [AgedUser(25), AgedUser(28), AgedUser(35)];
    assert rows[1..] == [AgedUser(28), AgedUser(35)];
    assert rows[1..][1..] == [AgedUser(35)];
  }

  lemma {:induction false} TrimStartPadded(pad: string, s: string)
    requires forall i :: 0 <= i < |pad| ==> IsTrimmed(pad[i])
    ensures TrimStart(pad + s) == TrimStart(s)
  {
    if pad != [] {
      assert (pad + s)[0] == pad[0];
      assert (pad + s)[1..] == pad[1..] + s;
      TrimStartPadded(pad[1..], s);
    } else {
      assert pad + s == s;
    }
  }

  lemma {:induction false} TrimEndPadded(s: string, pad: string)
    requires forall i :: 0 <= i < |pad| ==> IsTrimmed(pad[i])
    ensures TrimEnd(s + pad) == TrimEnd(s)
  {
    if pad != [] {
      assert (s + pad)[|s + pad| - 1] == pad[|pad| - 1];
      assert (s + pad)[..|s + pad| - 1] == s + pad[..|pad| - 1];
      TrimEndPadded(s, pad[..|pad| - 1]);
    } else {
      assert s + pad == s;
    }
  }

  /** Surrounding the filter with whitespace does not change which rows it matches. */
  lemma NameFilterIgnoresPadding(f: string, before: string, after: string, u: User)
    requires forall i :: 0 <= i < |before| ==> IsTrimmed(before[i])
    requires forall i :: 0 <= i < |after| ==> IsTrimmed(after[i])
    ensures WithNameCont(Some(before + f + after), u) == WithNameCont(Some(f), u)
  {
    TrimStartPadded(before, f + after);
    assert before + f + after == before + (f + after);
    var a := TrimStart(f + after);
    // `a` is `TrimStart(f) + after`, unless `f` is all trimmed characters.
    if TrimStart(f) == [] {
      TrimStartAllTrimmed(f, after);
      assert TrimEnd(a) == [];
      TrimIsInfix(f);
    } else {
      TrimStartKeepsSuffix(f, after);
      TrimEndPadded(TrimStart(f), after);
    }
  }

  lemma {:induction false} TrimStartKeepsSuffix(f: string, after: string)
    requires TrimStart(f) != []
    ensures TrimStart(f + after) == TrimStart(f) + after
  {
    assert (f + after)[0] == f[0];
    if IsTrimmed(f[0]) {
      assert (f + after)[1..] == f[1..] + after;
      assert TrimStart(f) == TrimStart(f[1..]);
      TrimStartKeepsSuffix(f[1..], after);
    }
  }

  lemma {:induction false} TrimStartAllTrimmed(f: string, after: string)
    requires TrimStart(f) == []
    requires forall i :: 0 <= i < |after| ==> IsTrimmed(after[i])
    ensures TrimStart(f + after) == []
  {
    if f != [] {
      assert (f + after)[1..] == f[1..] + after;
      TrimStartAllTrimmed(f[1..], after);
    } else {
      assert f + after == after;
      TrimStartPadded(after, []);
      assert after + [] == after;
    }
  }

  lemma LowerKeepsTrimmed(c: char)
    ensures IsTrimmed(Lower(c)) == IsTrimmed(c)
  {
  }

  lemma {:induction false} TrimStartLower(s: string)
    ensures TrimStart(ToLower(s)) == ToLower(TrimStart(s))
  {
    if s != [] {
      LowerKeepsTrimmed(s[0]);
      assert ToLower(s)[1..] == ToLower(s[1..]);
      TrimStartLower(s[1..]);
    }
  }

  lemma {:induction false} TrimEndLower(s: string)
    ensures TrimEnd(ToLower(s)) == ToLower(TrimEnd(s))
  {
    if s != [] {
      LowerKeepsTrimmed(s[|s| - 1]);
      assert ToLower(s)[..|s| - 1] == ToLower(s[..|s| - 1]);
      TrimEndLower(s[..|s| - 1]);
    }
  }

  /** Trimming and lower-casing commute. */
  lemma TrimLower(f: string)
    ensures Trim(ToLower(f)) == ToLower(Trim(f))
  {
    TrimStartLower(f);
    TrimEndLower(TrimStart(f));
  }

  /** The letter case of the filter and of the stored name does not matter. */
  lemma NameFilterIgnoresCase(f: string, u: User)
    ensures WithNameCont(Some(ToLower(f)), u) == WithNameCont(Some(f), u)
    ensures u.name.Some? ==> WithNameCont(Some(f), u.(name := Some(ToLower(u.name.value)))) == WithNameCont(Some(f), u)
  {
    TrimLower(f);
    ToLowerIdempotent(Trim(f));
    assert ToLower(Trim(ToLower(f))) == ToLower(Trim(f));
    if u.name.Some? {
      ToLowerIdempotent(u.name.value);
    }
  }

  /** A filter that trims to nothing accepts every row whose name is not null, and no other. */
  lemma BlankNameFilter(f: string, u: User)
    requires Trim(f) == []
    ensures WithNameCont(Some(f), u) <==> u.name.Some?
  {
    if u.name.Some? {
      ContainsEmpty(ToLower(u.name.value));
    }
  }

  /** The filter "john doe" matches the stored name "John Doe". */
  lemma NameFilterExample()
    ensures WithNameCont(Some("john doe"), User(None, Some("John Doe"), None, None, None, None))
  {
    var f := "john doe";
    TrimOfWord(f);
    LowerOfJohnDoe();
    assert ToLower(Trim(f)) == f;
    assert StartsWith(ToLower("John Doe"), f);
  }

  lemma TrimOfWord(f: string)
    requires f == "john doe"
    ensures Trim(f) == f
  {
    assert !IsTrimmed(f[0]) && !IsTrimmed(f[|f| - 1]);
  }

  lemma LowerOfJohnDoe()
    ensures ToLower("John Doe") == "john doe"
    ensures ToLower("john doe") == "john doe"
  {
    LowerMatches("John Doe", "john doe");
    LowerMatches("john doe", "john doe");
  }

  /** `t` is `s` with each character lower-cased. */
  lemma LowerMatches(s: string, t: string)
    requires |s| == |t|
    requires forall i :: 0 <= i < |s| ==> (if 'A' <= s[i] <= 'Z' then s[i] as int + 32 == t[i] as int else s[i] == t[i])
    requires forall i :: 0 <= i < |s| ==> !('Ѐ' <= s[i] <= 'Я')
    ensures ToLower(s) == t
  {
  }
}

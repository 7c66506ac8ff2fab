/** `UserParamsDTO`: the filter, sort and paging parameters of `GET /api/users`, their
    validation constraints, `toPageable`, and the page the store returns for it. */
module Params {
  import opened Wrappers
  import opened Text
  import opened Users
  import opened Exceptions

  datatype UserParams = UserParams(
    name: Option<string>,
    ageGt: Option<int>,
    ageLt: Option<int>,
    createdAtGt: Option<Instant>,
    createdAtLt: Option<Instant>,
    page: Option<int>,
    size: Option<int>,
    sortBy: Option<string>,
    sortDirection: Option<string>)

  const DefaultPage := 0
  const DefaultSize := 20
  const DefaultSortBy := "createdAt"
  const DefaultSortDirection := "desc"

  /** A freshly constructed parameter object: the field initialisers, no filter. */
  function Defaults(): (p: UserParams)
    ensures p.name.None? && p.ageGt.None? && p.ageLt.None? && p.createdAtGt.None? && p.createdAtLt.None?
    ensures p.page == Some(0) && p.size == Some(20) && p.sortBy == Some("createdAt") && p.sortDirection == Some("desc")
  {
    UserParams(None, None, None, None, None, Some(DefaultPage), Some(DefaultSize), Some(DefaultSortBy), Some(DefaultSortDirection))
  }

  /** `@Pattern(regexp = "id|createdAt|name|age|email")` on `sortBy`. */
  predicate ValidSortBy(s: string) {
    s == "id" || s == "createdAt" || s == "name" || s == "age" || s == "email"
  }

  /** `@Pattern(regexp = "asc|desc", flags = CASE_INSENSITIVE)` on `sortDirection`. */
  predicate ValidSortDirection(s: string) {
    ToLower(s) == "asc" || ToLower(s) == "desc"
  }

  /** `@Positive` on `ageGt` and `ageLt`; an absent bound is not checked. */
  predicate ValidBounds(p: UserParams) {
    (p.ageGt.Some? ==> p.ageGt.value > 0) && (p.ageLt.Some? ==> p.ageLt.value > 0)
  }

  /** Every constraint declared on the parameter object. `@Pattern` accepts null, so a null
      `sortBy` or `sortDirection` passes. */
  predicate ValidParams(p: UserParams) {
    && ValidBounds(p)
    && (p.sortBy.Some? ==> ValidSortBy(p.sortBy.value))
    && (p.sortDirection.Some? ==> ValidSortDirection(p.sortDirection.value))
  }

  /** The parameters of a request that sets none of them pass validation. */
  lemma DefaultsAreValid()
    ensures ValidParams(Defaults())
  {
    assert ToLower("desc") == "desc";
  }

  datatype Direction = Asc | Desc

  /** The entity properties a sort may name. */
  datatype SortField = Id | Name | Email | Age | CreatedAt | UpdatedAt

  /** `Sort.Direction.fromString`: "asc" or "desc" in any letter case. */
  function ParseDirection(s: string): (d: Option<Direction>)
    ensures d.Some? <==> ValidSortDirection(s)
  {
    if ToLower(s) == "asc" then Some(Asc) else if ToLower(s) == "desc" then Some(Desc) else None
  }

  /** A name of a `User` property. */
  predicate PropertyName(s: string) {
    s == "id" || s == "name" || s == "email" || s == "age" || s == "createdAt" || s == "updatedAt"
  }

  /** `Introspector.decapitalize`, which the store applies to a sort property before resolving
      it: the first letter is lower-cased, unless the second letter is a capital as well. */
  function Decapitalize(s: string): (r: string)
    ensures |r| == |s| && (s != [] ==> r[1..] == s[1..])
    ensures s != [] && !(|s| >= 2 && Lower(s[1]) != s[1]) ==> r[0] == Lower(s[0])
    ensures |s| >= 2 && Lower(s[0]) != s[0] && Lower(s[1]) != s[1] ==> r == s
  {
    if s == [] then s
    else if |s| >= 2 && Lower(s[1]) != s[1] && Lower(s[0]) != s[0] then s
    else [Lower(s[0])] + s[1..]
  }

  /** The property path of a sort resolved against `User`; the store rejects any other name. */
  function ResolveSortField(s: string): Option<SortField> {
    match Decapitalize(s)
    case "id" => Some(Id)
    case "name" => Some(Name)
    case "email" => Some(Email)
    case "age" => Some(Age)
    case "createdAt" => Some(CreatedAt)
    case "updatedAt" => Some(UpdatedAt)
    case _ => None
  }

  /** Every name `sortBy` may hold resolves to an entity property other than `updatedAt`. The
      store resolves exactly the property names, also with a capital first letter. */
  lemma ValidSortByResolves(s: string)
    ensures ValidSortBy(s) ==> ResolveSortField(s).Some? && ResolveSortField(s) != Some(UpdatedAt)
    ensures ResolveSortField(s).Some? <==>
      PropertyName(s) || (s != [] && 'A' <= s[0] <= 'Z' && PropertyName([Lower(s[0])] + s[1..]))
  {
    var d := Decapitalize(s);
    if PropertyName(s) {
      assert Lower(s[0]) == s[0] && Lower(s[1]) == s[1];
      assert d == s;
    }
    if s != [] && 'A' <= s[0] <= 'Z' && PropertyName([Lower(s[0])] + s[1..]) {
      var n := [Lower(s[0])] + s[1..];
      assert s[1] == n[1] && Lower(n[1]) == n[1];
      assert d == n;
    }
    if PropertyName(d) {
      assert Lower(d[0]) == d[0] && d[0] != s[0] ==> 'A' <= s[0] <= 'Z';
      if d == s {
        assert PropertyName(s);
      } else {
        assert d == [Lower(s[0])] + s[1..];
      }
    }
  }

  /** A `PageRequest`: zero-based page, size and a single sort order. */
  datatype Pageable = Pageable(page: nat, size: nat, sortBy: string, direction: Direction)

  /** The `NullPointerException` of unboxing a null `Integer` field. */
  function NullUnboxing(field: string): Exception {
    Unexpected(Some("Cannot invoke \"java.lang.Integer.intValue()\" because \"this." + field + "\" is null"))
  }

  /** The `IllegalArgumentException` of `Sort.Direction.fromString` for a value it cannot parse,
      null included (its `toUpperCase` fails and the failure is rethrown). */
  function InvalidDirection(value: Option<string>): Exception {
    IllegalArgument("Invalid value '" + JavaString(value) + "' for orders given; Has to be either 'desc' or 'asc' (case insensitive)")
  }

  /** The `IllegalArgumentException` of `Sort.Order` for a null or blank property. */
  const BlankProperty := IllegalArgument("Property must not be null or empty")

  /** `Sort.by(Sort.Direction.fromString(sortDirection), sortBy)`: the direction is parsed first,
      then the sort order rejects a property that is null or has no text. */
  function SortOf(sortDirection: Option<string>, sortBy: Option<string>): (r: Result<Direction, Exception>)
    ensures r.Success? <==>
      sortDirection.Some? && ValidSortDirection(sortDirection.value) && sortBy.Some? && HasText(sortBy.value)
    ensures r.Success? ==> Some(r.value) == ParseDirection(sortDirection.value)
    ensures sortDirection.None? ==> r == Failure(InvalidDirection(None))
    ensures sortDirection.Some? && ValidSortDirection(sortDirection.value) && (sortBy.None? || !HasText(sortBy.value)) ==>
      r == Failure(BlankProperty)
    ensures r.Failure? ==> r.error.IllegalArgument?
  {
    var d := if sortDirection.Some? then ParseDirection(sortDirection.value) else None;
    if d.None? then Failure(InvalidDirection(sortDirection))
    else if sortBy.None? || !HasText(sortBy.value) then Failure(BlankProperty)
    else Success(d.value)
  }

  /** `toPageable()`: `PageRequest.of(page, size, Sort.by(Sort.Direction.fromString(sortDirection), sortBy))`.
      The arguments are evaluated from left to right: `page` and `size` are unboxed, which
      throws on null, and then the sort is built. The page request then rejects a negative page
      and a size below one. */
  function ToPageable(p: UserParams): (r: Result<Pageable, Exception>)
    ensures r.Success? <==>
      && p.page.Some? && p.size.Some?
      && p.sortDirection.Some? && ValidSortDirection(p.sortDirection.value)
      && p.sortBy.Some? && HasText(p.sortBy.value)
      && p.page.value >= 0 && p.size.value >= 1
    ensures p.page.None? ==> r == Failure(NullUnboxing("page"))
    ensures p.page.Some? && p.size.None? ==> r == Failure(NullUnboxing("size"))
    ensures p.page.Some? && p.size.Some? && p.sortDirection.None? ==> r == Failure(InvalidDirection(None))
    ensures
      && p.page.Some? && p.size.Some? && p.sortDirection.Some? && ValidSortDirection(p.sortDirection.value)
      && (p.sortBy.None? || !HasText(p.sortBy.value))
      ==> r == Failure(BlankProperty)
    ensures r.Success? ==> Some(r.value.page as int) == p.page && Some(r.value.size as int) == p.size && r.value.size >= 1
    ensures r.Success? ==> Some(r.value.sortBy) == p.sortBy && Some(r.value.direction) == ParseDirection(p.sortDirection.value)
    ensures r.Failure? && p.page.Some? && p.size.Some? ==> r.error.IllegalArgument?
  {
    if p.page.None? then Failure(NullUnboxing("page"))
    else if p.size.None? then Failure(NullUnboxing("size"))
    else
      var sort := SortOf(p.sortDirection, p.sortBy);
      if sort.Failure? then Failure(sort.error)
      else if p.page.value < 0 then Failure(IllegalArgument("Page index must not be less than zero"))
      else if p.size.value < 1 then Failure(IllegalArgument("Page size must not be less than one"))
      else Success(Pageable(p.page.value, p.size.value, p.sortBy.value, sort.value))
  }

  /** With nothing set, the page request is page 0 of 20, newest first. */
  lemma DefaultPageable()
    ensures ToPageable(Defaults()) == Success(Pageable(0, 20, "createdAt", Desc))
  {
    assert !JavaWhitespace(DefaultSortBy[0]);
    assert ToLower("desc") == "desc";
    assert ToLower("desc") != "asc";
  }

  /** A blank `sortBy` is refused while the page request is built, before the page is looked
      at. */
  lemma BlankSortByRefused()
    ensures ToPageable(Defaults().(sortBy := Some(" "), page := Some(-1))) == Failure(BlankProperty)
  {
    assert ToLower("desc") == "desc";
    assert !HasText(" ");
  }

  /** A request with `page=` and a nonsense direction fails on the null page: it is unboxed before
      the direction is parsed. */
  lemma NullPageRefusedFirst()
    ensures ToPageable(Defaults().(page := None, size := None, sortDirection := Some("up")))
      == Failure(NullUnboxing("page"))
  {
  }

  /** `GET /api/users?_sortBy` binds a null `sortBy` and `?_sortDirection` a null direction:
      either passes validation, since `@Pattern` accepts null, and is refused when the page
      request is built. */
  lemma NullSortPassesValidationButFails()
    ensures ValidParams(Defaults().(sortBy := None))
    ensures ToPageable(Defaults().(sortBy := None)) == Failure(BlankProperty)
    ensures ValidParams(Defaults().(sortDirection := None))
    ensures ToPageable(Defaults().(sortDirection := None)) == Failure(InvalidDirection(None))
  {
    DefaultsAreValid();
    assert ToLower("desc") == "desc";
  }

  /** A capitalised property name sorts on that property; an all-capitals one is not resolved. */
  lemma CapitalisedSortBy()
    ensures ResolveSortField("Name") == Some(Name) && ResolveSortField("NAME") == None
  {
    assert Decapitalize("Name") == "name";
    assert Decapitalize("NAME") == "NAME";
  }

  /** The slice of `rows` a page request selects: indices `[page * size, page * size + size)`. */
  function PageOf<T>(rows: seq<T>, page: nat, size: nat): (r: seq<T>)
    ensures |r| <= size
    ensures page * size >= |rows| ==> r == []
    ensures rows == [] ==> r == []
    ensures forall k :: 0 <= k < |r| ==> page * size + k < |rows| && r[k] == rows[page * size + k]
    ensures page * size + size <= |rows| ==> |r| == size
  {
    var start := page * size;
    if start >= |rows| then []
    else if start + size <= |rows| then rows[start..start + size]
    else rows[start..]
  }

  /** `Page.getTotalPages()`: the number of pages of `size` rows needed for `total` rows. */
  function TotalPages(total: nat, size: nat): nat
    requires size >= 1
  {
    (total + size - 1) / size
  }

  /** Every row sits on exactly one page: row `i` is entry `i % size` of page `i / size`. */
  lemma PageHoldsRow<T>(rows: seq<T>, size: nat, i: nat)
    requires size >= 1 && i < |rows|
    ensures i / size < TotalPages(|rows|, size)
    ensures i % size < |PageOf(rows, i / size, size)|
    ensures PageOf(rows, i / size, size)[i % size] == rows[i]
  {
    var q, m := i / size, i % size;
    assert q * size + m == i;
    assert q * size <= i;
    var n := |rows|;
    assert (n + size - 1) / size >= q + 1 by {
      assert n + size - 1 >= q * size + size;
      DivAtLeast(n + size - 1, size, q + 1);
    }
    var r := PageOf(rows, q, size);
    if q * size + size <= n {
      assert |r| == size;
    } else {
      assert r == rows[q * size..];
    }
  }

  lemma DivAtLeast(a: nat, d: nat, q: nat)
    requires d >= 1 && a >= q * d
    ensures a / d >= q
  {
    if a / d < q {
      assert a == (a / d) * d + a % d;
      assert (a / d) * d <= (q - 1) * d by {
        MulMono(a / d, q - 1, d);
      }
    }
  }

  lemma MulMono(x: nat, y: nat, d: nat)
    requires x <= y
    ensures x * d <= y * d
  {
  }

  /** Three rows in pages of two: page 0 holds two rows and there are two pages. */
  lemma PagingExample<T>(a: T, b: T, c: T)
    ensures PageOf([a, b, c], 0, 2) == [a, b]
    ensures PageOf([a, b, c], 1, 2) == [c]
    ensures TotalPages(3, 2) == 2
  {
  }
}

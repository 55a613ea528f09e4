/** Finding accounts and groups: the SCIM equality filter that narrows with LIKE and then compares
    exactly, paging, and the group scan (internal/scim/handler.go, internal/store/sqlstore.go). */
module Directory {
  import opened Accounts
  import opened Basics

  /** A row of the users table. A directory is the table in its ORDER BY order. */
  datatype Row = Row(id: string, user: User)

  datatype Field = UserName | Email | DisplayName

  datatype Found = Page(rows: seq<Row>, total: nat) | TooMany | InvalidFilter

  const MAX_CANDIDATES: nat := 1000

  function FieldOf(user: User, field: Field): string {
    match field
    case UserName => user.username
    case Email => user.email
    case DisplayName => user.displayName
  }

  function Matching(rows: seq<Row>, wanted: User -> bool): seq<Row> {
    if rows == [] then []
    else if wanted(rows[0].user) then [rows[0]] + Matching(rows[1..], wanted)
    else Matching(rows[1..], wanted)
  }

  /** The accounts an equality filter stands for, by reading every row. */
  function BruteForce(rows: seq<Row>, field: Field, value: string): seq<Row> {
    Matching(rows, (u: User) => u.managed && SameFold(FieldOf(u, field), value))
  }

  // ----- SQL -----

  /** LIKE without an escape character: % is any text, _ any character. */
  predicate Like(pattern: string, text: string)
    decreases |pattern| + |text|
  {
    if pattern == "" then text == ""
    else if pattern[0] == '%' then Like(pattern[1..], text) || (text != "" && Like(pattern, text[1..]))
    else text != "" && (pattern[0] == '_' || pattern[0] == text[0]) && Like(pattern[1..], text[1..])
  }

  predicate Narrowed(user: User, search: string) {
    TrimSpace(search) == "" ||
    var pattern := "%" + Lower(TrimSpace(search)) + "%";
    Like(pattern, Lower(user.username)) || Like(pattern, Lower(user.displayName)) || Like(pattern, Lower(user.email))
  }

  /** What a search that shows SCIM's accounts only asks of a row. */
  predicate IsWanted(user: User, search: string) {
    user.managed && Narrowed(user, search)
  }

  function Candidates(rows: seq<Row>, search: string): seq<Row> {
    Matching(rows, (u: User) => IsWanted(u, search))
  }

  /** LIMIT and OFFSET. */
  function Slice<T>(all: seq<T>, offset: nat, limit: nat): seq<T> {
    all[Min(offset, |all|)..Min(offset + limit, |all|)]
  }

  lemma {:induction false} MatchingJoins(a: seq<Row>, b: seq<Row>, wanted: User -> bool)
    ensures Matching(a + b, wanted) == Matching(a, wanted) + Matching(b, wanted)
    decreases |a|
  {
    if a == [] {
      assert a + b == b;
    } else {
      assert (a + b)[1..] == a[1..] + b;
      MatchingJoins(a[1..], b, wanted);
    }
  }

  lemma MatchingLast(rows: seq<Row>, last: Row, wanted: User -> bool)
    ensures Matching(rows + [last], wanted) == Matching(rows, wanted) + if wanted(last.user) then [last] else []
  {
    MatchingJoins(rows, [last], wanted);
    assert [last][1..] == [];
  }

  lemma CandidatesGrow(rows: seq<Row>, i: nat, search: string)
    requires i < |rows|
    ensures Candidates(rows[..i + 1], search)
         == Candidates(rows[..i], search) + if IsWanted(rows[i].user, search) then [rows[i]] else []
  {
    assert rows[..i + 1] == rows[..i] + [rows[i]];
    MatchingLast(rows[..i], rows[i], (u: User) => IsWanted(u, search));
  }

  lemma SliceGrows<T>(all: seq<T>, last: T, offset: nat, limit: nat)
    ensures Slice(all + [last], offset, limit)
         == Slice(all, offset, limit) + if offset <= |all| < offset + limit then [last] else []
  {
  }

  /** The page lists rows of the table in the table's order: `at` says which. */
  predicate Lists(page: seq<Row>, rows: seq<Row>, at: seq<nat>) {
    && |at| == |page| && (forall i, j :: 0 <= i < j < |at| ==> at[i] < at[j])
    && forall i :: 0 <= i < |at| ==> at[i] < |rows| && page[i] == rows[at[i]]
  }

  lemma ListsMore(page: seq<Row>, rows: seq<Row>, at: seq<nat>, i: nat)
    requires i < |rows| && Lists(page, rows, at) && forall k :: 0 <= k < |at| ==> at[k] < i
    ensures Lists(page + [rows[i]], rows, at + [i])
  {
  }

  /** ListSCIMUsers as the database runs it: the rows in order, those wanted counted, and those from the
      offset on kept up to the limit. */
  method ListScimUsers(rows: seq<Row>, offset: int, limit: int, search: string)
    returns (page: seq<Row>, total: nat, ghost at: seq<nat>)
    ensures total == |Candidates(rows, search)| && |page| <= if limit <= 0 then 50 else limit
    ensures page == Slice(Candidates(rows, search), Max(offset, 0), if limit <= 0 then 50 else limit)
    ensures Lists(page, rows, at) && forall row :: row in page ==> IsWanted(row.user, search)
  {
    var size, from := limit, offset;
    if size <= 0 {
      size := 50;
    }
    if from < 0 {
      from := 0;
    }
    page, total, at := [], 0, [];
    ghost var found: seq<Row> := [];
    for i := 0 to |rows|
      invariant found == Candidates(rows[..i], search)
      invariant total == |found| && page == Slice(found, from, size)
      invariant Lists(page, rows, at) && forall k :: 0 <= k < |at| ==> at[k] < i
      invariant forall row :: row in page ==> IsWanted(row.user, search)
    {
      CandidatesGrow(rows, i, search);
      if IsWanted(rows[i].user, search) {
        SliceGrows(found, rows[i], from, size);
        found := found + [rows[i]];
        if from <= total < from + size {
          ListsMore(page, rows, at, i);
          page, at := page + [rows[i]], at + [i];
        }
        total := total + 1;
      }
    }
    assert rows[..|rows|] == rows;
  }

  /** GetUserByUsername: some row whose lowered name matches, if there is one. */
  predicate IsLookup(rows: seq<Row>, name: string, hits: seq<Row>) {
    && |hits| <= 1 && (forall row :: row in hits ==> row in rows && SameFold(row.user.username, name))
    && (hits == [] ==> forall row :: row in rows ==> !SameFold(row.user.username, name))
  }

  method GetUserByUsername(rows: seq<Row>, name: string) returns (hits: seq<Row>)
    ensures IsLookup(rows, name, hits)
  {
    if i :| 0 <= i < |rows| && SameFold(rows[i].user.username, name) {
      return [rows[i]];
    }
    hits := [];
  }

  // ----- LIKE finds every substring -----

  lemma {:induction false} LikeItself(text: string, rest: string)
    ensures Like(text + "%", text + rest)
    decreases |text|
  {
    if text == "" {
      assert text + "%" == "%" && text + rest == rest;
      LikeAnything(rest);
    } else {
      assert (text + "%")[1..] == text[1..] + "%" && (text + rest)[1..] == text[1..] + rest;
      LikeItself(text[1..], rest);
      if text[0] == '%' {
        assert Like(text + "%", (text + rest)[1..]) by {
          assert Like(text[1..] + "%", text[1..] + rest);
        }
      }
    }
  }

  lemma {:induction false} LikeAnything(text: string)
    ensures Like("%", text)
    decreases |text|
  {
    if text != "" {
      LikeAnything(text[1..]);
    } else {
      assert "%"[1..] == "";
    }
  }

  lemma {:induction false} LikeSubstring(before: string, text: string, after: string)
    ensures Like("%" + text + "%", before + text + after)
    decreases |before|
  {
    var pattern, whole := "%" + text + "%", before + text + after;
    assert pattern[1..] == text + "%";
    if before == "" {
      assert whole == text + after;
      LikeItself(text, after);
    } else {
      assert whole[1..] == before[1..] + text + after;
      LikeSubstring(before[1..], text, after);
    }
  }

  lemma {:induction false} TrimLeftIsSuffix(s: string, cut: char -> bool) returns (before: string)
    ensures s == before + TrimLeft(s, cut)
    decreases |s|
  {
    before := "";
    if s != "" && cut(s[0]) {
      var rest := TrimLeftIsSuffix(s[1..], cut);
      before := [s[0]] + rest;
    }
  }

  lemma {:induction false} TrimRightIsPrefix(s: string, cut: char -> bool) returns (after: string)
    ensures s == TrimRight(s, cut) + after
    decreases |s|
  {
    after := "";
    if s != "" && cut(s[|s| - 1]) {
      var rest := TrimRightIsPrefix(s[..|s| - 1], cut);
      after := rest + [s[|s| - 1]];
    }
  }

  /** Any account whose attribute equals the value is among the narrowed candidates, wildcards and
      surrounding blanks in the value notwithstanding. */
  lemma EqualIsNarrowed(user: User, field: Field, value: string)
    requires SameFold(FieldOf(user, field), value)
    ensures Narrowed(user, value)
  {
    var before := TrimLeftIsSuffix(value, IsSpace);
    var after := TrimRightIsPrefix(TrimLeft(value, IsSpace), IsSpace);
    var text := FieldOf(user, field);
    assert Lower(value) == Lower(before) + Lower(TrimSpace(value)) + Lower(after);
    LikeSubstring(Lower(before), Lower(TrimSpace(value)), Lower(after));
  }

  lemma {:induction false} NarrowingLosesNothing(rows: seq<Row>, field: Field, value: string)
    ensures BruteForce(Candidates(rows, value), field, value) == BruteForce(rows, field, value)
    decreases |rows|
  {
    if rows != [] {
      NarrowingLosesNothing(rows[1..], field, value);
      var first := rows[0];
      if first.user.managed && SameFold(FieldOf(first.user, field), value) {
        EqualIsNarrowed(first.user, field, value);
      }
      if first.user.managed && Narrowed(first.user, value) {
        assert Candidates(rows, value) == [first] + Candidates(rows[1..], value);
        assert ([first] + Candidates(rows[1..], value))[1..] == Candidates(rows[1..], value);
      }
    }
  }

  // ----- and nothing else, where there is no wildcard -----

  predicate NoWildcard(text: string) { '%' !in text && '_' !in text }

  lemma {:induction false} LikeIsPrefix(text: string, whole: string)
    requires NoWildcard(text) && Like(text + "%", whole)
    ensures text <= whole
    decreases |text|
  {
    if text != "" {
      assert (text + "%")[0] == text[0] && (text + "%")[1..] == text[1..] + "%" && text[0] in text;
      assert forall c :: c in text[1..] ==> c in text;
      LikeIsPrefix(text[1..], whole[1..]);
    }
  }

  lemma {:induction false} LikeHasSuffix(pattern: string, whole: string) returns (rest: string, before: string)
    requires pattern != "" && pattern[0] == '%' && Like(pattern, whole)
    ensures whole == before + rest && Like(pattern[1..], rest)
    decreases |whole|
  {
    if Like(pattern[1..], whole) {
      rest, before := whole, "";
    } else {
      rest, before := LikeHasSuffix(pattern, whole[1..]);
      before := [whole[0]] + before;
    }
  }

  /** A pattern reads from the left: % is any text, _ any one character, another character itself. */
  lemma {:induction false} LikeReads(c: char, pattern: string, text: string)
    ensures Like([c] + pattern, text) <==>
      if c == '%' then exists i :: 0 <= i <= |text| && Like(pattern, text[i..])
      else text != "" && (c == '_' || c == text[0]) && Like(pattern, text[1..])
    decreases |text|
  {
    assert ([c] + pattern)[1..] == pattern && text[0..] == text;
    if c == '%' && text != "" {
      LikeReads(c, pattern, text[1..]);
      forall i | 0 < i <= |text| ensures text[i..] == text[1..][i - 1..] {
      }
      if i :| 0 <= i <= |text[1..]| && Like(pattern, text[1..][i..]) {
        assert Like(pattern, text[i + 1..]);
      }
    }
  }

  /** A search text without wildcards keeps exactly the rows of which some name, display name or address has it
      within, letter case and surrounding blanks aside. */
  lemma NarrowedMeansWithin(user: User, search: string)
    requires TrimSpace(search) != "" && NoWildcard(Lower(TrimSpace(search)))
    ensures
      var text := Lower(TrimSpace(search));
      Narrowed(user, search) <==>
        Within(text, Lower(user.username)) || Within(text, Lower(user.displayName)) || Within(text, Lower(user.email))
  {
    LikeMeansWithin(Lower(TrimSpace(search)), Lower(user.username));
    LikeMeansWithin(Lower(TrimSpace(search)), Lower(user.displayName));
    LikeMeansWithin(Lower(TrimSpace(search)), Lower(user.email));
  }

  ghost predicate Within(text: string, whole: string) {
    exists before, after :: whole == before + text + after
  }

  lemma LikeMeansWithin(text: string, whole: string)
    requires NoWildcard(text)
    ensures Like("%" + text + "%", whole) <==> Within(text, whole)
  {
    if Like("%" + text + "%", whole) {
      var rest, before := LikeHasSuffix("%" + text + "%", whole);
      assert ("%" + text + "%")[1..] == text + "%";
      LikeIsPrefix(text, rest);
      assert whole == before + text + rest[|text|..];
    }
    if before, after :| whole == before + text + after {
      LikeSubstring(before, text, after);
    }
  }

  /** What a selection lists: in the table's order, exactly the rows wanted; `at` says which. */
  lemma {:induction false} SelectionIsExact(rows: seq<Row>, wanted: User -> bool) returns (at: seq<nat>)
    ensures Lists(Matching(rows, wanted), rows, at)
    ensures forall k :: 0 <= k < |rows| ==> (k in at <==> wanted(rows[k].user))
    decreases |rows|
  {
    at := [];
    if rows != [] {
      var front, last := rows[..|rows| - 1], rows[|rows| - 1];
      at := SelectionIsExact(front, wanted);
      assert rows == front + [last];
      MatchingLast(front, last, wanted);
      if wanted(last.user) {
        at := at + [|rows| - 1];
      }
    }
  }

  /** An equality filter lists, in the table's order, exactly the accounts SCIM manages whose user name, address or
      display name is the value but for letter case; `at` says which. */
  lemma FilterListsEqual(rows: seq<Row>, field: Field, value: string) returns (at: seq<nat>)
    ensures Lists(BruteForce(rows, field, value), rows, at)
    ensures forall k :: 0 <= k < |rows| ==>
      var u := rows[k].user;
      var text := if field.UserName? then u.username else if field.Email? then u.email else u.displayName;
      k in at <==> u.managed && Lower(text) == Lower(value)
  {
    at := SelectionIsExact(rows, (u: User) => u.managed && SameFold(FieldOf(u, field), value));
  }

  // ----- the filter as it runs -----

  /** A page of a filtered answer; a count of zero or less asks for all of it. */
  function PageOf<T>(all: seq<T>, startIndex: int, count: int): seq<T> {
    var start := Min(Max(startIndex - 1, 0), |all|);
    all[start..if count > 0 then Min(start + count, |all|) else |all|]
  }

  /** The page begins with the element numbered startIndex, the first being 1 and anything below it as good, and
      ends with the list or after `count` elements, when that is positive. */
  lemma PageHolds<T>(all: seq<T>, startIndex: int, count: int)
    ensures
      var page, first := PageOf(all, startIndex, count), if startIndex < 1 then 0 else startIndex - 1;
      && (forall i :: 0 <= i < |page| ==> first + i < |all| && page[i] == all[first + i])
      && (first >= |all| ==> page == [])
      && (first < |all| ==> |page| == if 0 < count < |all| - first then count else |all| - first)
  {
  }

  lemma {:induction false} NoHit(rows: seq<Row>, wanted: User -> bool)
    requires forall row :: row in rows ==> !wanted(row.user)
    ensures Matching(rows, wanted) == []
    decreases |rows|
  {
    if rows != [] {
      assert rows[0] in rows;
      NoHit(rows[1..], wanted);
    }
  }

  /** The rows whose lowered name is the value's: more than one where names clash. */
  function Holding(rows: seq<Row>, name: string): seq<Row> {
    Matching(rows, (u: User) => SameFold(u.username, name))
  }

  /** What the userName filter keeps of a lookup's row. */
  function ManagedHits(hits: seq<Row>): seq<Row> {
    if hits != [] && hits[0].user.managed then hits else []
  }

  /** One row holds the name, or none that does is managed. */
  predicate LookupDecides(rows: seq<Row>, name: string) {
    |Holding(rows, name)| <= 1 || forall row :: row in Holding(rows, name) ==> !row.user.managed
  }

  lemma {:induction false} MatchingHas(rows: seq<Row>, wanted: User -> bool, row: Row)
    ensures row in Matching(rows, wanted) <==> row in rows && wanted(row.user)
    decreases |rows|
  {
    if rows != [] {
      MatchingHas(rows[1..], wanted, row);
      assert row in rows <==> row == rows[0] || row in rows[1..];
    }
  }

  lemma {:induction false} BruteForceOfHolding(rows: seq<Row>, name: string)
    ensures BruteForce(rows, UserName, name) == Matching(Holding(rows, name), (u: User) => u.managed)
    decreases |rows|
  {
    if rows != [] {
      BruteForceOfHolding(rows[1..], name);
      if SameFold(rows[0].user.username, name) {
        assert Holding(rows, name)[1..] == Holding(rows[1..], name);
      }
    }
  }

  lemma LookupFindsAll(rows: seq<Row>, name: string, hits: seq<Row>)
    requires IsLookup(rows, name, hits) && LookupDecides(rows, name)
    ensures ManagedHits(hits) == BruteForce(rows, UserName, name)
  {
    var named, managed := (u: User) => SameFold(u.username, name), (u: User) => u.managed;
    var holding := Holding(rows, name);
    BruteForceOfHolding(rows, name);
    if hits == [] {
      NoHit(rows, named);
    } else {
      MatchingHas(rows, named, hits[0]);
      if |holding| == 1 {
        assert holding[1..] == [];
      } else {
        NoHit(holding, managed);
      }
    }
  }

  /** Where names clash the database may answer any row that holds the name. Every answer gives what reading
      every row would exactly when one row holds it or none that does is managed. */
  lemma LookupIsExact(rows: seq<Row>, name: string)
    ensures LookupDecides(rows, name) <==>
      forall hits :: IsLookup(rows, name, hits) ==> ManagedHits(hits) == BruteForce(rows, UserName, name)
  {
    var named, managed := (u: User) => SameFold(u.username, name), (u: User) => u.managed;
    var holding := Holding(rows, name);
    BruteForceOfHolding(rows, name);
    if LookupDecides(rows, name) {
      forall hits | IsLookup(rows, name, hits) ensures ManagedHits(hits) == BruteForce(rows, UserName, name) {
        LookupFindsAll(rows, name, hits);
      }
    } else {
      var row :| row in holding && row.user.managed;
      MatchingHas(rows, named, row);
      MatchingHas(holding, managed, row);
      assert IsLookup(rows, name, [row]);
      if |Matching(holding, managed)| < |holding| {
        var other := SomeLeftOut(holding, managed);
        MatchingHas(rows, named, other);
        assert IsLookup(rows, name, [other]);
      }
    }
  }

  lemma {:induction false} SomeLeftOut(rows: seq<Row>, wanted: User -> bool) returns (row: Row)
    requires |Matching(rows, wanted)| < |rows|
    ensures row in rows && !wanted(row.user)
    decreases |rows|
  {
    row := rows[0];
    if wanted(row.user) {
      row := SomeLeftOut(rows[1..], wanted);
    }
  }

  lemma MatchingNext(rows: seq<Row>, i: nat, wanted: User -> bool)
    requires i < |rows|
    ensures Matching(rows[i..], wanted)
         == (if wanted(rows[i].user) then [rows[i]] else []) + Matching(rows[i + 1..], wanted)
  {
    assert rows[i..][0] == rows[i] && rows[i..][1..] == rows[i + 1..];
  }

  /** strings.EqualFold over the candidates, in order. */
  method KeepEqual(candidates: seq<Row>, field: Field, value: string) returns (kept: seq<Row>)
    ensures kept == Matching(candidates, (u: User) => SameFold(FieldOf(u, field), value))
  {
    ghost var equal := (u: User) => SameFold(FieldOf(u, field), value);
    kept := [];
    for i := 0 to |candidates|
      invariant Matching(candidates, equal) == kept + Matching(candidates[i..], equal)
    {
      MatchingNext(candidates, i, equal);
      if SameFold(FieldOf(candidates[i].user, field), value) {
        kept := kept + [candidates[i]];
      }
    }
  }

  lemma {:induction false} ManagedAlready(rows: seq<Row>, field: Field, value: string)
    requires forall row :: row in rows ==> row.user.managed
    ensures Matching(rows, (u: User) => SameFold(FieldOf(u, field), value)) == BruteForce(rows, field, value)
    decreases |rows|
  {
    if rows != [] {
      assert rows[0] in rows;
      ManagedAlready(rows[1..], field, value);
    }
  }

  lemma {:induction false} CandidatesAreManaged(rows: seq<Row>, search: string)
    ensures forall row :: row in Candidates(rows, search) ==> row.user.managed && row in rows
    decreases |rows|
  {
    if rows != [] {
      CandidatesAreManaged(rows[1..], search);
      assert rows[0] in rows && forall row :: row in rows[1..] ==> row in rows;
    }
  }

  /** An equality filter answers a page of exactly the managed accounts whose attribute equals the value
      ignoring case, or refuses because more than a thousand rows were narrowed down to. A userName filter
      reads one row, `hits`, which decides when names do not clash on it. */
  method FilterUsers(rows: seq<Row>, field: Field, value: string, startIndex: int, count: int)
    returns (found: Found, ghost hits: seq<Row>)
    ensures found.InvalidFilter? <==> TrimSpace(value) == ""
    ensures found.TooMany? <==> TrimSpace(value) != "" && !field.UserName? && |Candidates(rows, value)| > 1000
    ensures found.Page? ==>
      var all := if field.UserName? then ManagedHits(hits) else BruteForce(rows, field, value);
      && (field.UserName? ==> IsLookup(rows, value, hits))
      && found.total == |all| && found.rows == PageOf(all, startIndex, count)
    ensures found.Page? && (field.UserName? ==> LookupDecides(rows, value)) ==>
      && found.total == |BruteForce(rows, field, value)|
      && found.rows == PageOf(BruteForce(rows, field, value), startIndex, count)
  {
    hits := [];
    if TrimSpace(value) == "" {
      return InvalidFilter, hits;
    }
    var candidates;
    if field.UserName? {
      candidates := GetUserByUsername(rows, value);
      hits := candidates;
      if candidates != [] && !candidates[0].user.managed {
        candidates := [];
      }
      if LookupDecides(rows, value) {
        LookupFindsAll(rows, value, hits);
      }
    } else {
      var total;
      ghost var at;
      candidates, total, at := ListScimUsers(rows, 0, MAX_CANDIDATES, value);
      if total > MAX_CANDIDATES {
        return TooMany, hits;
      }
      assert candidates == Candidates(rows, value);
      CandidatesAreManaged(rows, value);
      NarrowingLosesNothing(rows, field, value);
      ManagedAlready(candidates, field, value);
    }
    var users := KeepEqual(candidates, field, value);
    var page := PageFrom(users, startIndex, count);
    found := Page(page, |users|);
  }

  method PageFrom(users: seq<Row>, startIndex: int, count: int) returns (page: seq<Row>)
    ensures page == PageOf(users, startIndex, count)
  {
    var all := |users|;
    var start := Min(Max(startIndex - 1, 0), all);
    var end := all;
    if count > 0 {
      end := Min(start + count, all);
    }
    page := users[start..end];
  }

  // ----- consecutive pages -----

  function FirstPages<T>(all: seq<T>, count: nat, pages: nat): seq<T>
    requires count > 0
  {
    if pages == 0 then [] else FirstPages(all, count, pages - 1) + PageOf(all, 1 + (pages - 1) * count, count)
  }

  function FirstSlices<T>(all: seq<T>, count: nat, pages: nat): seq<T>
    requires count > 0
  {
    if pages == 0 then [] else FirstSlices(all, count, pages - 1) + Slice(all, (pages - 1) * count, count)
  }

  lemma PageIsSlice<T>(all: seq<T>, offset: nat, count: nat)
    requires count > 0
    ensures PageOf(all, 1 + offset, count) == Slice(all, offset, count)
  {
  }

  lemma SliceExtends<T>(all: seq<T>, offset: nat, count: nat)
    ensures all[..Min(offset, |all|)] + Slice(all, offset, count) == all[..Min(offset + count, |all|)]
  {
  }

  lemma NextOffset(pages: nat, count: nat)
    requires pages > 0
    ensures pages * count == (pages - 1) * count + count
  {
  }

  /** Consecutive pages, filtered or listed by LIMIT and OFFSET, are the whole answer once each. */
  lemma {:induction false} PagesConcatenate<T>(all: seq<T>, count: nat, pages: nat)
    requires count > 0
    ensures FirstPages(all, count, pages) == FirstSlices(all, count, pages) == all[..Min(pages * count, |all|)]
    ensures |all| <= pages * count ==> FirstPages(all, count, pages) == FirstSlices(all, count, pages) == all
  {
    if pages > 0 {
      PagesConcatenate(all, count, pages - 1);
      var offset := (pages - 1) * count;
      NextOffset(pages, count);
      PageIsSlice(all, offset, count);
      SliceExtends(all, offset, count);
    }
    assert all[..|all|] == all;
  }

  // ----- scanning the groups -----

  datatype Group = Group(id: string, externalId: string)

  datatype GroupsFound = Groups(groups: seq<Group>) | TooManyGroups

  function WithExternalId(groups: seq<Group>, externalId: string): seq<Group> {
    if groups == [] then []
    else if groups[0].externalId == externalId then [groups[0]] + WithExternalId(groups[1..], externalId)
    else WithExternalId(groups[1..], externalId)
  }

  lemma {:induction false} WithExternalIdJoins(a: seq<Group>, b: seq<Group>, externalId: string)
    ensures WithExternalId(a + b, externalId) == WithExternalId(a, externalId) + WithExternalId(b, externalId)
    decreases |a|
  {
    if a == [] {
      assert a + b == b;
    } else {
      assert (a + b)[1..] == a[1..] + b;
      WithExternalIdJoins(a[1..], b, externalId);
    }
  }

  /** The answer lists, in the table's order, exactly the groups with that externalId; `at` says which. */
  lemma {:induction false} GroupsAreThoseWithId(groups: seq<Group>, externalId: string) returns (at: seq<nat>)
    ensures |at| == |WithExternalId(groups, externalId)| && forall i, j :: 0 <= i < j < |at| ==> at[i] < at[j]
    ensures forall i :: 0 <= i < |at| ==> at[i] < |groups| && WithExternalId(groups, externalId)[i] == groups[at[i]]
    ensures forall k :: 0 <= k < |groups| ==> (k in at <==> groups[k].externalId == externalId)
    decreases |groups|
  {
    at := [];
    if groups != [] {
      var front, last := groups[..|groups| - 1], groups[|groups| - 1];
      at := GroupsAreThoseWithId(front, externalId);
      WithExternalIdJoins(front, [last], externalId);
      assert groups == front + [last] && [last][1..] == [];
      if last.externalId == externalId {
        at := at + [|groups| - 1];
      }
    }
  }

  /** The store answers the table: the groups at the offset, and how many there are. */
  ghost predicate Honest(answer: (nat, nat) -> (seq<Group>, nat), table: seq<Group>) {
    forall call, offset :: answer(call, offset) == (Slice(table, offset, 200), |table|)
  }

  /** The externalId scan. It ends after at most a thousand and one calls whatever page sizes and
      totals the store answers; over a table that stands still it finds every group with the id,
      or refuses a table of more than a thousand. */
  method FilterGroups(answer: (nat, nat) -> (seq<Group>, nat), externalId: string, ghost table: seq<Group>)
    returns (found: GroupsFound, calls: nat)
    ensures 1 <= calls <= 1001
    ensures Honest(answer, table) ==>
      found == if |table| > 1000 then TooManyGroups else Groups(WithExternalId(table, externalId))
  {
    var out := [];
    var offset := 0;
    calls := 0;
    while true
      invariant calls <= offset <= MAX_CANDIDATES
      invariant Honest(answer, table) ==> offset <= |table| && out == WithExternalId(table[..offset], externalId)
      decreases MAX_CANDIDATES - offset
    {
      var (page, total) := answer(calls, offset);
      calls := calls + 1;
      if total > MAX_CANDIDATES {
        return TooManyGroups, calls;
      }
      out := out + WithExternalId(page, externalId);
      ghost var seen := offset;
      offset := offset + |page|;
      if Honest(answer, table) {
        assert table[..seen] + page == table[..offset];
        WithExternalIdJoins(table[..seen], page, externalId);
      }
      if |page| == 0 || offset >= total {
        assert Honest(answer, table) ==> table[..offset] == table;
        return Groups(out), calls;
      }
    }
  }

  // ----- the case-insensitive name index -----

  predicate ClashFree(names: seq<string>) {
    forall i, j :: 0 <= i < j < |names| ==> Lower(names[i]) != Lower(names[j])
  }

  function NamesLike(names: seq<string>, key: string): seq<string> {
    if names == [] then []
    else
      var earlier := NamesLike(names[..|names| - 1], key);
      if Lower(names[|names| - 1]) == key then earlier + [names[|names| - 1]] else earlier
  }

  /** The names with that lowered form, in order; `at` says which. */
  lemma {:induction false} NamesLikeAreExact(names: seq<string>, key: string) returns (at: seq<nat>)
    ensures |at| == |NamesLike(names, key)| && forall i, j :: 0 <= i < j < |at| ==> at[i] < at[j]
    ensures forall i :: 0 <= i < |at| ==> at[i] < |names| && NamesLike(names, key)[i] == names[at[i]]
    ensures forall k :: 0 <= k < |names| ==> (k in at <==> Lower(names[k]) == key)
    decreases |names|
  {
    at := [];
    if names != [] {
      at := NamesLikeAreExact(names[..|names| - 1], key);
      if Lower(names[|names| - 1]) == key {
        at := at + [|names| - 1];
      }
    }
  }

  /** `groups` says where in `clashes` each lowered name of `names` is collected. */
  ghost predicate Grouped(names: seq<string>, clashes: seq<seq<string>>, groups: map<string, nat>) {
    && (forall key :: key in groups ==>
      groups[key] < |clashes| && |clashes[groups[key]]| > 0 && Lower(clashes[groups[key]][0]) == key)
    && (forall i :: 0 <= i < |clashes| ==> CollectedAt(names, clashes[i], groups, i))
    && (forall k :: 0 <= k < |names| ==> Lower(names[k]) in groups)
  }

  ghost predicate CollectedAt(names: seq<string>, clash: seq<string>, groups: map<string, nat>, i: nat) {
    && |clash| > 0 && Lower(clash[0]) in groups && groups[Lower(clash[0])] == i
    && clash == NamesLike(names, Lower(clash[0]))
  }

  lemma GroupKnown(names: seq<string>, clashes: seq<seq<string>>, groups: map<string, nat>, name: string)
    requires Grouped(names, clashes, groups) && Lower(name) in groups
    ensures
      var i := groups[Lower(name)];
      i < |clashes| && Grouped(names + [name], clashes[i := clashes[i] + [name]], groups)
  {
    var i := groups[Lower(name)];
    var after := clashes[i := clashes[i] + [name]];
    assert (names + [name])[..|names|] == names;
    forall j | 0 <= j < |after| ensures CollectedAt(names + [name], after[j], groups, j) {
      assert CollectedAt(names, clashes[j], groups, j);
    }
  }

  lemma GroupNew(names: seq<string>, clashes: seq<seq<string>>, groups: map<string, nat>, name: string)
    requires Grouped(names, clashes, groups) && Lower(name) !in groups
    ensures Grouped(names + [name], clashes + [[name]], groups[Lower(name) := |clashes|])
  {
    var after, next := clashes + [[name]], groups[Lower(name) := |clashes|];
    assert (names + [name])[..|names|] == names;
    NoneLike(names, Lower(name));
    forall j | 0 <= j < |after| ensures CollectedAt(names + [name], after[j], next, j) {
      if j < |clashes| {
        assert CollectedAt(names, clashes[j], groups, j);
      }
    }
  }

  /** The clash query's loop: names by lowered form, in the order the rows come. */
  method GroupNames(rows: seq<string>) returns (clashes: seq<seq<string>>)
    ensures |clashes| == 0 <==> rows == []
    ensures forall i :: 0 <= i < |clashes| ==> |clashes[i]| > 0 && clashes[i] == NamesLike(rows, Lower(clashes[i][0]))
    ensures forall i, j :: 0 <= i < j < |clashes| ==> Lower(clashes[i][0]) != Lower(clashes[j][0])
    ensures forall name :: name in rows ==> exists i :: 0 <= i < |clashes| && name in clashes[i]
  {
    clashes := [];
    var groups: map<string, nat> := map[];
    for n := 0 to |rows|
      invariant Grouped(rows[..n], clashes, groups)
    {
      var name := rows[n];
      assert rows[..n + 1] == rows[..n] + [name];
      if Lower(name) !in groups {
        GroupNew(rows[..n], clashes, groups, name);
        groups := groups[Lower(name) := |clashes|];
        clashes := clashes + [[name]];
      } else {
        GroupKnown(rows[..n], clashes, groups, name);
        var i := groups[Lower(name)];
        clashes := clashes[i := clashes[i] + [name]];
      }
    }
    assert rows[..|rows|] == rows;
    EveryNameIsGrouped(rows, clashes, groups);
  }

  /** The clash query over `rows`, a prefix of the table in its ORDER BY order: the names whose
      lowered form more than one row of the table has. */
  function Shared(rows: seq<string>, table: seq<string>): seq<string> {
    if rows == [] then []
    else
      var earlier, name := Shared(rows[..|rows| - 1], table), rows[|rows| - 1];
      if |NamesLike(table, Lower(name))| > 1 then earlier + [name] else earlier
  }

  lemma {:induction false} SharedLike(rows: seq<string>, table: seq<string>, key: string)
    ensures NamesLike(Shared(rows, table), key) == if |NamesLike(table, key)| > 1 then NamesLike(rows, key) else []
    decreases |rows|
  {
    if rows != [] {
      var earlier, name := rows[..|rows| - 1], rows[|rows| - 1];
      SharedLike(earlier, table, key);
      assert (Shared(earlier, table) + [name])[..|Shared(earlier, table)|] == Shared(earlier, table);
    }
  }

  lemma {:induction false} TwoAreLike(names: seq<string>, i: nat, j: nat)
    requires i < j < |names| && Lower(names[i]) == Lower(names[j])
    ensures |NamesLike(names, Lower(names[j]))| > 1
    decreases |names|
  {
    var earlier := names[..|names| - 1];
    if j < |names| - 1 {
      TwoAreLike(earlier, i, j);
    } else {
      LikeItsOwn(earlier, i);
    }
  }

  lemma {:induction false} LikeTwo(names: seq<string>, key: string) returns (i: nat, j: nat)
    requires |NamesLike(names, key)| > 1
    ensures i < j < |names| && Lower(names[i]) == key == Lower(names[j])
    decreases |names|
  {
    var earlier := names[..|names| - 1];
    if |NamesLike(earlier, key)| > 1 {
      i, j := LikeTwo(earlier, key);
    } else {
      i := LikeOne(earlier, key);
      j := |names| - 1;
    }
  }

  lemma {:induction false} LikeOne(names: seq<string>, key: string) returns (i: nat)
    requires |NamesLike(names, key)| > 0
    ensures i < |names| && Lower(names[i]) == key
    decreases |names|
  {
    var earlier := names[..|names| - 1];
    if |NamesLike(earlier, key)| > 0 {
      i := LikeOne(earlier, key);
    } else {
      i := |names| - 1;
    }
  }

  /** EnsureUsernameIndex: the unique index is built exactly when no two names differ only in
      letter case; otherwise each clash is reported once, with every name of it. */
  method EnsureUsernameIndex(table: seq<string>) returns (clashes: seq<seq<string>>, built: bool)
    ensures built <==> ClashFree(table)
    ensures built <==> clashes == []
    ensures forall i :: 0 <= i < |clashes| ==> |clashes[i]| > 1 && clashes[i] == NamesLike(table, Lower(clashes[i][0]))
    ensures forall i, j :: 0 <= i < j < |clashes| ==> Lower(clashes[i][0]) != Lower(clashes[j][0])
    ensures forall k, m :: 0 <= k < m < |table| && Lower(table[k]) == Lower(table[m]) ==>
      exists i :: 0 <= i < |clashes| && clashes[i] == NamesLike(table, Lower(table[k]))
  {
    var rows := Shared(table, table);
    clashes := GroupNames(rows);
    forall i | 0 <= i < |clashes| ensures |clashes[i]| > 1 && clashes[i] == NamesLike(table, Lower(clashes[i][0])) {
      SharedLike(table, table, Lower(clashes[i][0]));
    }
    forall k, m | 0 <= k < m < |table| && Lower(table[k]) == Lower(table[m])
      ensures exists i :: 0 <= i < |clashes| && clashes[i] == NamesLike(table, Lower(table[k]))
    {
      TwoAreLike(table, k, m);
      SharedLike(table, table, Lower(table[k]));
      var n := LikeOne(rows, Lower(table[k]));
      assert rows[n] in rows;
      var i :| 0 <= i < |clashes| && rows[n] in clashes[i];
      OnlyLike(table, Lower(clashes[i][0]), rows[n]);
    }
    built := |clashes| == 0;
    if !built {
      assert clashes[0] == NamesLike(table, Lower(clashes[0][0]));
      var i, j := LikeTwo(table, Lower(clashes[0][0]));
    }
  }

  lemma {:induction false} OnlyLike(names: seq<string>, key: string, name: string)
    requires name in NamesLike(names, key)
    ensures Lower(name) == key
    decreases |names|
  {
    if names != [] && name in NamesLike(names[..|names| - 1], key) {
      OnlyLike(names[..|names| - 1], key, name);
    }
  }

  lemma EveryNameIsGrouped(names: seq<string>, clashes: seq<seq<string>>, groups: map<string, nat>)
    requires Grouped(names, clashes, groups)
    ensures forall i :: 0 <= i < |clashes| ==> |clashes[i]| > 0 && clashes[i] == NamesLike(names, Lower(clashes[i][0]))
    ensures forall i, j :: 0 <= i < j < |clashes| ==> Lower(clashes[i][0]) != Lower(clashes[j][0])
    ensures forall name :: name in names ==> exists i :: 0 <= i < |clashes| && name in clashes[i]
    ensures |clashes| == 0 <==> names == []
  {
    forall i | 0 <= i < |clashes| ensures CollectedAt(names, clashes[i], groups, i) {}
    forall name | name in names ensures exists i :: 0 <= i < |clashes| && name in clashes[i] {
      var k :| 0 <= k < |names| && names[k] == name;
      var i := groups[Lower(name)];
      assert CollectedAt(names, clashes[i], groups, i);
      LikeItsOwn(names, k);
    }
    if |clashes| > 0 {
      assert CollectedAt(names, clashes[0], groups, 0);
    }
    if names != [] {
      assert Lower(names[0]) in groups;
    }
  }

  lemma {:induction false} LikeItsOwn(names: seq<string>, k: nat)
    requires k < |names|
    ensures names[k] in NamesLike(names, Lower(names[k]))
    decreases |names|
  {
    if k < |names| - 1 {
      LikeItsOwn(names[..|names| - 1], k);
    }
  }

  lemma {:induction false} NoneLike(names: seq<string>, key: string)
    requires forall k :: 0 <= k < |names| ==> Lower(names[k]) != key
    ensures NamesLike(names, key) == []
    decreases |names|
  {
    if names != [] {
      NoneLike(names[..|names| - 1], key);
    }
  }
}

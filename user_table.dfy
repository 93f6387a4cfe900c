/** The user-table page: the loaded active records (`users`), the records on screen
    (`filteredUsers`), the direction of the next column sort and the search box, and the
    handlers that move them from one value to the next. */
module UserTable {
  import opened Wrappers
  import opened Seqs
  import opened Text

  const Active := "active"
  const Inactive := "inactive"
  const NewUserName := "New User"

  /** One document of the `users` collection, with the id the store assigned to it.
      `addedDate` is the creation timestamp in milliseconds since the epoch. */
  datatype UserRecord = UserRecord(id: string, username: string, addedDate: int, status: string)

  /** The fields `handleAddUser` sends to the store; the store assigns the id. */
  datatype NewUser = NewUser(username: string, addedDate: int, status: string)

  /** The three sortable columns of the table header. */
  datatype Column = Username | AddedDate | Status

  datatype SortOrder = Asc | Desc

  /** The locale-dependent parts of JavaScript's `Date`: the instant `new Date(value)`
      reads from the date box (`None` for an Invalid Date), how a timestamp is shown
      (`toDate().toLocaleDateString()`), local midnight of the day a timestamp falls on
      (`setHours(0, 0, 0, 0)`), and the same wall-clock time one calendar day later
      (`setDate(getDate() + 1)`). */
  datatype Locale = Locale(parseDateInput: string -> Option<int>, dateString: int -> string,
                           startOfDay: int -> int, sameTimeNextDay: int -> int)

  // ---------------------------------------------------------------------------
  // Load

  predicate IsActive(u: UserRecord) { u.status == Active }

  /** The fetched records whose status is "active", in fetched order. */
  function ActiveOnly(fetched: seq<UserRecord>): (r: seq<UserRecord>)
    ensures forall u :: u in r ==> u in fetched && u.status == Active
    ensures forall u :: u in fetched && u.status == Active ==> u in r
    ensures multiset(r) <= multiset(fetched)
  {
    Filter(fetched, IsActive)
  }

  // ---------------------------------------------------------------------------
  // Delete

  function NotId(id: string): UserRecord -> bool
  {
    (u: UserRecord) => u.id != id
  }

  /** `rs.filter((user) => user.id !== userId)`. */
  function WithoutId(rs: seq<UserRecord>, id: string): (r: seq<UserRecord>)
    ensures forall u :: u in r ==> u in rs && u.id != id
    ensures forall u :: u in rs && u.id != id ==> u in r
    ensures multiset(r) <= multiset(rs)
  {
    Filter(rs, NotId(id))
  }

  /** Deleting from the view and from the loaded users keeps the view inside the users. */
  lemma WithoutIdKeepsInclusion(view: seq<UserRecord>, all: seq<UserRecord>, id: string)
    requires multiset(view) <= multiset(all)
    ensures multiset(WithoutId(view, id)) <= multiset(WithoutId(all, id))
  {
    FilterMonotone(view, all, NotId(id));
  }

  /** Deleting the same id twice deletes nothing more. */
  lemma WithoutIdIdempotent(rs: seq<UserRecord>, id: string)
    ensures WithoutId(WithoutId(rs, id), id) == WithoutId(rs, id)
  {
    FilterRefines(rs, NotId(id), NotId(id));
  }

  // ---------------------------------------------------------------------------
  // Toggle status

  /** The status `handleChangeStatus` writes, given the status shown on the row. */
  function Toggled(status: string): (r: string)
    ensures r == Active || r == Inactive
    ensures status == Active ==> r == Inactive
    ensures status != Active ==> r == Active
  {
    if status == Active then Inactive else Active
  }

  function PatchStatus(id: string, st: string): UserRecord -> UserRecord
  {
    (u: UserRecord) => if u.id == id then u.(status := st) else u
  }

  /** `rs.map((user) => user.id === userId ? { ...user, status: newStatus } : user)`. */
  function WithStatus(rs: seq<UserRecord>, id: string, st: string): (r: seq<UserRecord>)
    ensures |r| == |rs|
    ensures forall i :: 0 <= i < |rs| ==>
      r[i].id == rs[i].id && r[i].username == rs[i].username && r[i].addedDate == rs[i].addedDate
    ensures forall i :: 0 <= i < |rs| ==> r[i].status == if rs[i].id == id then st else rs[i].status
    ensures forall i :: 0 <= i < |rs| && rs[i].id != id ==> r[i] == rs[i]
  {
    Map(rs, PatchStatus(id, st))
  }

  /** Patching the view and the loaded users alike keeps the view inside the users. */
  lemma WithStatusKeepsInclusion(view: seq<UserRecord>, all: seq<UserRecord>, id: string, st: string)
    requires multiset(view) <= multiset(all)
    ensures multiset(WithStatus(view, id, st)) <= multiset(WithStatus(all, id, st))
  {
    MapMonotone(view, all, PatchStatus(id, st));
  }

  /** Toggling a user back restores the table: when every record with `id` shows
      `status` ("active" or "inactive"), toggling it and then toggling the new status
      gives back the original records. */
  lemma ToggleTwiceRestores(rs: seq<UserRecord>, id: string, status: string)
    requires status == Active || status == Inactive
    requires forall u :: u in rs && u.id == id ==> u.status == status
    ensures WithStatus(WithStatus(rs, id, Toggled(status)), id, Toggled(Toggled(status))) == rs
  {
    var once := WithStatus(rs, id, Toggled(status));
    var twice := WithStatus(once, id, Toggled(Toggled(status)));
    forall i | 0 <= i < |rs| ensures twice[i] == rs[i] {
      if rs[i].id == id {
        assert rs[i] in rs;
      }
    }
  }

  // ---------------------------------------------------------------------------
  // Search

  /** The search test of `handleFilter` for an already lower-cased term. The empty term
      matches every record. */
  predicate MatchesSearch(u: UserRecord, term: string, loc: Locale)
    ensures term == "" ==> MatchesSearch(u, term, loc)
  {
    ContainsEmpty(Lower(u.username));
    || Contains(Lower(u.username), term)
    || Contains(loc.dateString(u.addedDate), term)
    || Contains(Lower(u.status), term)
  }

  function Matching(term: string, loc: Locale): UserRecord -> bool
  {
    (u: UserRecord) => MatchesSearch(u, term, loc)
  }

  /** The users that match a search term, in their order among the users. */
  function SearchResults(users: seq<UserRecord>, term: string, loc: Locale): (r: seq<UserRecord>)
    ensures forall u :: u in r ==> u in users && MatchesSearch(u, term, loc)
    ensures forall u :: u in users && MatchesSearch(u, term, loc) ==> u in r
    ensures multiset(r) <= multiset(users)
  {
    Filter(users, Matching(term, loc))
  }

  /** Clearing the search box shows every loaded user, in order. */
  lemma EmptySearchShowsAll(users: seq<UserRecord>, loc: Locale)
    ensures SearchResults(users, Lower(""), loc) == users
  {
    assert forall u :: u in users ==> Matching("", loc)(u);
    FilterAll(users, Matching("", loc));
  }

  /** Typing more narrows the view: when the new term contains the old one, the new view
      is the old view searched again, so it keeps only records of the old view, in
      their order. */
  lemma NarrowingSearch(users: seq<UserRecord>, wider: string, narrower: string, loc: Locale)
    requires Contains(narrower, wider)
    ensures SearchResults(SearchResults(users, wider, loc), narrower, loc) == SearchResults(users, narrower, loc)
  {
    forall u | u in users && Matching(narrower, loc)(u) ensures Matching(wider, loc)(u) {
      if Contains(Lower(u.username), narrower) {
        ContainsTransitive(Lower(u.username), narrower, wider);
      } else if Contains(loc.dateString(u.addedDate), narrower) {
        ContainsTransitive(loc.dateString(u.addedDate), narrower, wider);
      } else {
        ContainsTransitive(Lower(u.status), narrower, wider);
      }
    }
    FilterRefines(users, Matching(narrower, loc), Matching(wider, loc));
  }

  /** Appending characters to the search box narrows the view. */
  lemma TypingNarrowsSearch(users: seq<UserRecord>, typed: string, more: string, loc: Locale)
    ensures SearchResults(SearchResults(users, Lower(typed), loc), Lower(typed + more), loc)
         == SearchResults(users, Lower(typed + more), loc)
  {
    LowerAppend(typed, more);
    assert OccursAt(Lower(typed), Lower(typed) + Lower(more), 0);
    NarrowingSearch(users, Lower(typed), Lower(typed + more), loc);
  }

  // ---------------------------------------------------------------------------
  // Date filter

  /** Local midnight of the selected day. */
  function DayStart(selected: int, loc: Locale): int
  {
    loc.startOfDay(selected)
  }

  /** Local midnight of the day after the selected day. */
  function DayEnd(selected: int, loc: Locale): int
  {
    loc.startOfDay(loc.sameTimeNextDay(selected))
  }

  function InWindow(start: int, end: int): UserRecord -> bool
  {
    (u: UserRecord) => start <= u.addedDate < end
  }

  /** The users added on the selected day, in their order among the users. An unreadable
      date (`None`, JavaScript's Invalid Date) compares false with everything and
      selects nobody. */
  function DateResults(users: seq<UserRecord>, selected: Option<int>, loc: Locale): (r: seq<UserRecord>)
    ensures selected.None? ==> r == []
    ensures selected.Some? ==> forall u :: u in r ==>
      u in users && DayStart(selected.value, loc) <= u.addedDate < DayEnd(selected.value, loc)
    ensures selected.Some? ==> forall u ::
      u in users && DayStart(selected.value, loc) <= u.addedDate < DayEnd(selected.value, loc) ==> u in r
    ensures multiset(r) <= multiset(users)
  {
    match selected
    case None => []
    case Some(day) => Filter(users, InWindow(DayStart(day, loc), DayEnd(day, loc)))
  }

  // ---------------------------------------------------------------------------
  // The date filter in a time zone at a fixed offset from UTC

  const DayMs := 86_400_000

  /** Local midnight of calendar day `n` (days since 1970-01-01) in a zone `offset`
      milliseconds ahead of UTC. */
  function LocalMidnight(n: int, offset: int): int
  {
    n * DayMs - offset
  }

  /** A zone at a fixed offset without daylight saving: local midnight of the day an
      instant falls on, and one day later being `DayMs` later. `parse` reads the date
      box and `show` formats a timestamp. */
  function FixedZone(offset: int, parse: string -> Option<int>, show: int -> string): Locale
  {
    Locale(parse, show, (t: int) => ((t + offset) / DayMs) * DayMs - offset, (t: int) => t + DayMs)
  }

  /** `new Date("YYYY-MM-DD")`: a date-only string denotes midnight UTC of that day.
      `dayOf` reads the box's value into its day number. */
  function UtcDateInput(dayOf: string -> Option<int>): (r: string -> Option<int>)
    ensures forall s :: r(s).Some? <==> dayOf(s).Some?
    ensures forall s :: dayOf(s).Some? ==> r(s) == Some(LocalMidnight(dayOf(s).value, 0))
  {
    (s: string) => if dayOf(s).Some? then Some(dayOf(s).value * DayMs) else None
  }

  /** Reading the picked day as local midnight, as `new Date(year, month - 1, day)` does. */
  function LocalDateInput(dayOf: string -> Option<int>, offset: int): string -> Option<int>
  {
    (s: string) => if dayOf(s).Some? then Some(LocalMidnight(dayOf(s).value, offset)) else None
  }

  lemma DayQuotient(q: int, r: int)
    requires 0 <= r < DayMs
    ensures (q * DayMs + r) / DayMs == q
  {
    var x := q * DayMs + r;
    assert x == (x / DayMs) * DayMs + x % DayMs;
    assert (x / DayMs - q) * DayMs == r - x % DayMs;
  }

  /** The window the handler computes from `start`: in a fixed zone, local midnight
      of `start`'s local day up to local midnight of the next day. */
  lemma FixedZoneWindow(start: int, n: int, offset: int, parse: string -> Option<int>, show: int -> string)
    requires LocalMidnight(n, offset) <= start < LocalMidnight(n + 1, offset)
    ensures DayStart(start, FixedZone(offset, parse, show)) == LocalMidnight(n, offset)
    ensures DayEnd(start, FixedZone(offset, parse, show)) == LocalMidnight(n + 1, offset)
  {
    var r := start + offset - n * DayMs;
    assert start + offset == n * DayMs + r;
    DayQuotient(n, r);
    assert start + DayMs + offset == (n + 1) * DayMs + r;
    DayQuotient(n + 1, r);
  }

  /** West of UTC the filter shows the day before the picked one: the UTC midnight that
      `new Date` reads falls on the previous local day, and `setHours(0, 0, 0, 0)` keeps
      that day. */
  lemma UtcInputShowsDayBefore(users: seq<UserRecord>, input: string, n: int, offset: int,
                               dayOf: string -> Option<int>, show: int -> string)
    requires -DayMs < offset < 0 && dayOf(input) == Some(n)
    ensures var loc := FixedZone(offset, UtcDateInput(dayOf), show);
      forall u :: u in DateResults(users, loc.parseDateInput(input), loc) <==>
        u in users && LocalMidnight(n - 1, offset) <= u.addedDate < LocalMidnight(n, offset)
  {
    var loc := FixedZone(offset, UtcDateInput(dayOf), show);
    assert loc.parseDateInput(input) == Some(n * DayMs);
    FixedZoneWindow(n * DayMs, n - 1, offset, UtcDateInput(dayOf), show);
  }

  /** At UTC and east of it the same reading does show the picked day. */
  lemma UtcInputEastShowsPickedDay(users: seq<UserRecord>, input: string, n: int, offset: int,
                                   dayOf: string -> Option<int>, show: int -> string)
    requires 0 <= offset < DayMs && dayOf(input) == Some(n)
    ensures var loc := FixedZone(offset, UtcDateInput(dayOf), show);
      forall u :: u in DateResults(users, loc.parseDateInput(input), loc) <==>
        u in users && LocalMidnight(n, offset) <= u.addedDate < LocalMidnight(n + 1, offset)
  {
    var loc := FixedZone(offset, UtcDateInput(dayOf), show);
    assert loc.parseDateInput(input) == Some(n * DayMs);
    FixedZoneWindow(n * DayMs, n, offset, UtcDateInput(dayOf), show);
  }

  /** Reading the picked day as local midnight shows that day in every zone. */
  lemma LocalInputShowsPickedDay(users: seq<UserRecord>, input: string, n: int, offset: int,
                                 dayOf: string -> Option<int>, show: int -> string)
    requires dayOf(input) == Some(n)
    ensures var loc := FixedZone(offset, LocalDateInput(dayOf, offset), show);
      forall u :: u in DateResults(users, loc.parseDateInput(input), loc) <==>
        u in users && LocalMidnight(n, offset) <= u.addedDate < LocalMidnight(n + 1, offset)
  {
    var loc := FixedZone(offset, LocalDateInput(dayOf, offset), show);
    assert loc.parseDateInput(input) == Some(LocalMidnight(n, offset));
    FixedZoneWindow(LocalMidnight(n, offset), n, offset, LocalDateInput(dayOf, offset), show);
  }

  // ---------------------------------------------------------------------------
  // Sort

  /** A column's value, as the comparison of the sort sees it: the two text columns
      compare as strings, the added date chronologically. */
  datatype Key = StrKey(text: string) | TimeKey(time: int)

  /** `a[columnName]`: the added-date column gives a time, the other two a string. */
  function KeyOf(u: UserRecord, col: Column): (k: Key)
    ensures k.TimeKey? <==> col == AddedDate
  {
    match col
    case Username => StrKey(u.username)
    case AddedDate => TimeKey(u.addedDate)
    case Status => StrKey(u.status)
  }

  /** `<` between two values of one column: strings by `<` on strings, timestamps by
      time. A string and a timestamp are never compared. */
  predicate KeyLess(a: Key, b: Key)
    ensures KeyLess(a, b) ==> a.StrKey? == b.StrKey?
  {
    if a.StrKey? && b.StrKey? then StrLess(a.text, b.text)
    else if a.TimeKey? && b.TimeKey? then a.time < b.time
    else false
  }

  function Flip(order: SortOrder): (r: SortOrder)
    ensures r != order
  {
    if order == Asc then Desc else Asc
  }

  /** `a` belongs strictly before `b`: what the comparator of `handleSort` says for two
      records with different keys. */
  predicate Precedes(a: UserRecord, b: UserRecord, col: Column, order: SortOrder)
    ensures Precedes(a, b, col, order) ==> KeyOf(a, col) != KeyOf(b, col)
  {
    KeyLessIrreflexive(KeyOf(a, col));
    match order
    case Asc => KeyLess(KeyOf(a, col), KeyOf(b, col))
    case Desc => KeyLess(KeyOf(b, col), KeyOf(a, col))
  }

  /** No record comes after one that should follow it. */
  ghost predicate Ordered(r: seq<UserRecord>, col: Column, order: SortOrder)
  {
    forall i, j :: 0 <= i < j < |r| ==> !Precedes(r[j], r[i], col, order)
  }

  /** Records that agree on the column are the same record. */
  ghost predicate DistinctKeys(s: seq<UserRecord>, col: Column)
  {
    forall x, y :: x in s && y in s && KeyOf(x, col) == KeyOf(y, col) ==> x == y
  }

  lemma KeyLessIrreflexive(a: Key)
    ensures !KeyLess(a, a)
  {
    if a.StrKey? {
      StrLessIrreflexive(a.text);
    }
  }

  lemma KeyLessTransitive(a: Key, b: Key, c: Key)
    requires KeyLess(a, b) && KeyLess(b, c)
    ensures KeyLess(a, c)
  {
    if a.StrKey? {
      StrLessTransitive(a.text, b.text, c.text);
    }
  }

  lemma KeyLessTotal(a: Key, b: Key)
    requires a.StrKey? == b.StrKey? && a != b
    ensures KeyLess(a, b) || KeyLess(b, a)
  {
    if a.StrKey? {
      StrLessTotal(a.text, b.text);
    }
  }

  lemma PrecedesAsymmetric(a: UserRecord, b: UserRecord, col: Column, order: SortOrder)
    requires Precedes(a, b, col, order)
    ensures !Precedes(b, a, col, order)
  {
    if Precedes(b, a, col, order) {
      KeyLessTransitive(KeyOf(a, col), KeyOf(b, col), KeyOf(a, col));
      KeyLessIrreflexive(KeyOf(a, col));
    }
  }

  /** Records with different keys are ordered one way or the other. */
  lemma PrecedesTotal(a: UserRecord, b: UserRecord, col: Column, order: SortOrder)
    requires KeyOf(a, col) != KeyOf(b, col)
    ensures Precedes(a, b, col, order) || Precedes(b, a, col, order)
  {
    KeyLessTotal(KeyOf(a, col), KeyOf(b, col));
  }

  /** "Not after" is transitive: the comparator orders keys consistently. */
  lemma NotPrecedesTransitive(a: UserRecord, b: UserRecord, c: UserRecord, col: Column, order: SortOrder)
    requires !Precedes(a, b, col, order) && !Precedes(b, c, col, order)
    ensures !Precedes(a, c, col, order)
  {
    var ka, kb, kc := KeyOf(a, col), KeyOf(b, col), KeyOf(c, col);
    if Precedes(a, c, col, order) {
      if ka != kb { KeyLessTotal(ka, kb); }
      if kb != kc { KeyLessTotal(kb, kc); }
      if order == Asc {
        if ka != kb && kb != kc { KeyLessTransitive(kc, kb, ka); }
        KeyLessTransitive(ka, kc, ka);
      } else {
        if ka != kb && kb != kc { KeyLessTransitive(ka, kb, kc); }
        KeyLessTransitive(ka, kc, ka);
      }
      KeyLessIrreflexive(ka);
    }
  }

  lemma OrderedTail(s: seq<UserRecord>, col: Column, order: SortOrder)
    requires s != [] && Ordered(s, col, order)
    ensures Ordered(s[1..], col, order)
  {
    var t := s[1..];
    forall i, j | 0 <= i < j < |t| ensures !Precedes(t[j], t[i], col, order) {
      assert t[i] == s[i + 1] && t[j] == s[j + 1];
    }
  }

  /** Insert `x` into an ordered sequence, after every record that precedes it. */
  function Insert(x: UserRecord, s: seq<UserRecord>, col: Column, order: SortOrder): (r: seq<UserRecord>)
    ensures multiset(r) == multiset(s) + multiset{x}
  {
    if s == [] then [x]
    else if Precedes(s[0], x, col, order) then
      assert s == [s[0]] + s[1..];
      [s[0]] + Insert(x, s[1..], col, order)
    else [x] + s
  }

  /** No record of an ordered sequence, nor a record its first element precedes, belongs
      before that first element. */
  lemma NothingBeforeHead(x: UserRecord, s: seq<UserRecord>, t: seq<UserRecord>, col: Column, order: SortOrder)
    requires s != [] && Ordered(s, col, order) && Precedes(s[0], x, col, order)
    requires multiset(t) == multiset(s[1..]) + multiset{x}
    ensures forall j :: 0 <= j < |t| ==> !Precedes(t[j], s[0], col, order)
  {
    forall j | 0 <= j < |t| ensures !Precedes(t[j], s[0], col, order) {
      assert t[j] in multiset(s[1..]) + multiset{x};
      if t[j] == x {
        PrecedesAsymmetric(s[0], x, col, order);
      } else {
        var k :| 0 <= k < |s[1..]| && s[1..][k] == t[j];
        assert s[k + 1] == t[j];
      }
    }
  }

  /** A record that no later record belongs before can head an ordered sequence. */
  lemma OrderedCons(x: UserRecord, s: seq<UserRecord>, col: Column, order: SortOrder)
    requires Ordered(s, col, order)
    requires forall j :: 0 <= j < |s| ==> !Precedes(s[j], x, col, order)
    ensures Ordered([x] + s, col, order)
  {
    var r := [x] + s;
    forall i, j | 0 <= i < j < |r| ensures !Precedes(r[j], r[i], col, order) {
      assert r[j] == s[j - 1];
      if i > 0 {
        assert r[i] == s[i - 1];
      }
    }
  }

  lemma {:induction false} InsertOrdered(x: UserRecord, s: seq<UserRecord>, col: Column, order: SortOrder)
    requires Ordered(s, col, order)
    ensures Ordered(Insert(x, s, col, order), col, order)
  {
    if s != [] {
      if Precedes(s[0], x, col, order) {
        var t := Insert(x, s[1..], col, order);
        OrderedTail(s, col, order);
        InsertOrdered(x, s[1..], col, order);
        NothingBeforeHead(x, s, t, col, order);
        OrderedCons(s[0], t, col, order);
      } else {
        forall j | 0 <= j < |s| ensures !Precedes(s[j], x, col, order) {
          if j > 0 {
            NotPrecedesTransitive(s[j], s[0], x, col, order);
          }
        }
        OrderedCons(x, s, col, order);
      }
    }
  }

  /** The table `handleSort` computes: `filteredUsers` ordered by the column, ascending
      for `Asc` and descending for `Desc`. Insertion sort, inserting from the back. */
  function SortedBy(s: seq<UserRecord>, col: Column, order: SortOrder): (r: seq<UserRecord>)
    ensures multiset(r) == multiset(s)
    ensures Ordered(r, col, order)
  {
    if s == [] then []
    else
      assert s == [s[0]] + s[1..];
      var rest := SortedBy(s[1..], col, order);
      InsertOrdered(s[0], rest, col, order);
      Insert(s[0], rest, col, order)
  }

  /** Two ordered arrangements of the same records with distinct keys start alike. */
  lemma OrderedSameFirst(a: seq<UserRecord>, b: seq<UserRecord>, col: Column, order: SortOrder)
    requires a != [] && multiset(a) == multiset(b)
    requires Ordered(a, col, order) && Ordered(b, col, order)
    requires DistinctKeys(a, col)
    ensures b != [] && a[0] == b[0]
  {
    assert a[0] in multiset(a);
    assert a[0] in multiset(b) && b[0] in multiset(a);
    if a[0] != b[0] {
      PrecedesTotal(a[0], b[0], col, order);
      assert false;
    }
  }

  /** Rearranging records keeps their keys distinct. */
  lemma DistinctKeysRearranged(s: seq<UserRecord>, t: seq<UserRecord>, col: Column)
    requires multiset(t) <= multiset(s) && DistinctKeys(s, col)
    ensures DistinctKeys(t, col)
  {
    assert forall x :: x in t ==> x in multiset(s);
  }

  /** With distinct keys there is only one ordered arrangement: every sort that orders
      the records by the column, whatever it does with ties, returns this one. */
  lemma {:induction false} OrderedUnique(a: seq<UserRecord>, b: seq<UserRecord>, col: Column, order: SortOrder)
    requires multiset(a) == multiset(b)
    requires Ordered(a, col, order) && Ordered(b, col, order)
    requires DistinctKeys(a, col)
    ensures a == b
  {
    if a == [] {
      assert |b| == |multiset(b)| == 0;
    } else {
      OrderedSameFirst(a, b, col, order);
      MultisetTail(a, b);
      OrderedTail(a, col, order);
      OrderedTail(b, col, order);
      assert multiset(a[1..]) <= multiset(a) by {
        assert a == [a[0]] + a[1..];
      }
      DistinctKeysRearranged(a, a[1..], col);
      OrderedUnique(a[1..], b[1..], col, order);
      assert a == [a[0]] + a[1..] && b == [b[0]] + b[1..];
    }
  }

  /** The reverse of an ordered sequence is ordered the other way. */
  lemma ReverseOrdered(s: seq<UserRecord>, col: Column, order: SortOrder)
    requires Ordered(s, col, order)
    ensures Ordered(Reverse(s), col, Flip(order))
  {
    var r := Reverse(s);
    forall i, j | 0 <= i < j < |r| ensures !Precedes(r[j], r[i], col, Flip(order)) {
      assert r[i] == s[|s| - 1 - i] && r[j] == s[|s| - 1 - j];
    }
  }

  /** Clicking the same column twice with distinct keys: the second sort runs in the
      flipped direction and returns the first sort's result reversed. */
  lemma SortTwiceReverses(s: seq<UserRecord>, col: Column, order: SortOrder)
    requires DistinctKeys(s, col)
    ensures SortedBy(SortedBy(s, col, order), col, Flip(order)) == Reverse(SortedBy(s, col, order))
  {
    var once := SortedBy(s, col, order);
    var twice := SortedBy(once, col, Flip(order));
    ReverseOrdered(once, col, order);
    DistinctKeysRearranged(s, twice, col);
    OrderedUnique(twice, Reverse(once), col, Flip(order));
  }

  // ---------------------------------------------------------------------------
  // The page

  class UsersPage {
    var users: seq<UserRecord>
    var filteredUsers: seq<UserRecord>
    var sortOrder: SortOrder
    var searchTerm: string

    /** The view holds only loaded users, each at most as often as it was loaded: it is
        a rearranged sub-collection of `users`. */
    ghost predicate Valid()
      reads this
    {
      multiset(filteredUsers) <= multiset(users)
    }

    /** Mounting the page: the initial state, then the load `useEffect` starts. */
    constructor Mount(response: Option<seq<UserRecord>>)
      ensures Valid()
      ensures users == (if response.Some? then ActiveOnly(response.value) else [])
      ensures filteredUsers == users
      ensures sortOrder == Asc && searchTerm == ""
    {
      users := if response.Some? then ActiveOnly(response.value) else [];
      filteredUsers := if response.Some? then ActiveOnly(response.value) else [];
      sortOrder := Asc;
      searchTerm := "";
    }

    /** `fetchUsers`: `response` is the fetched collection, or `None` when the read threw. */
    method FetchUsers(response: Option<seq<UserRecord>>)
      requires Valid()
      modifies this
      ensures Valid()
      ensures response.Some? ==> users == ActiveOnly(response.value) && filteredUsers == users
      ensures response.None? ==> users == old(users) && filteredUsers == old(filteredUsers)
      ensures sortOrder == old(sortOrder) && searchTerm == old(searchTerm)
    {
      if response.Some? {
        var activeUsers := ActiveOnly(response.value);
        users := activeUsers;
        filteredUsers := activeUsers;
      }
    }

    /** `handleAddUser`: sends the default record (`sent`); when the store accepts it
        (`addOk`), reloads with `reload`. */
    method HandleAddUser(now: int, addOk: bool, reload: Option<seq<UserRecord>>) returns (sent: NewUser)
      requires Valid()
      modifies this
      ensures Valid()
      ensures sent.username == NewUserName && sent.addedDate == now && sent.status == Active
      ensures addOk && reload.Some? ==> users == ActiveOnly(reload.value) && filteredUsers == users
      ensures !addOk || reload.None? ==> users == old(users) && filteredUsers == old(filteredUsers)
      ensures sortOrder == old(sortOrder) && searchTerm == old(searchTerm)
    {
      sent := NewUser(NewUserName, now, Active);
      if addOk {
        FetchUsers(reload);
      }
    }

    /** `handleDeleteUser`: `ok` says whether the remote delete succeeded. */
    method HandleDeleteUser(userId: string, ok: bool)
      requires Valid()
      modifies this
      ensures Valid()
      ensures ok ==> users == WithoutId(old(users), userId)
      ensures ok ==> filteredUsers == WithoutId(old(filteredUsers), userId)
      ensures ok ==> forall u :: u in users || u in filteredUsers ==> u.id != userId
      ensures !ok ==> users == old(users) && filteredUsers == old(filteredUsers)
      ensures sortOrder == old(sortOrder) && searchTerm == old(searchTerm)
    {
      if ok {
        WithoutIdKeepsInclusion(filteredUsers, users, userId);
        users := WithoutId(users, userId);
        filteredUsers := WithoutId(filteredUsers, userId);
      }
    }

    /** `handleChangeStatus`: `status` is the status shown on the clicked row; `ok` says
        whether the remote update succeeded. */
    method HandleChangeStatus(userId: string, status: string, ok: bool)
      requires Valid()
      modifies this
      ensures Valid()
      ensures ok ==> users == WithStatus(old(users), userId, Toggled(status))
      ensures ok ==> filteredUsers == WithStatus(old(filteredUsers), userId, Toggled(status))
      ensures !ok ==> users == old(users) && filteredUsers == old(filteredUsers)
      ensures sortOrder == old(sortOrder) && searchTerm == old(searchTerm)
    {
      var newStatus := Toggled(status);
      if ok {
        WithStatusKeepsInclusion(filteredUsers, users, userId, newStatus);
        users := WithStatus(users, userId, newStatus);
        filteredUsers := WithStatus(filteredUsers, userId, newStatus);
      }
    }

    /** `handleSort`: reorders the view by the column in the current direction and flips
        the direction for the next click. */
    method HandleSort(column: Column)
      requires Valid()
      modifies this
      ensures Valid()
      ensures filteredUsers == SortedBy(old(filteredUsers), column, old(sortOrder))
      ensures multiset(filteredUsers) == multiset(old(filteredUsers))
      ensures Ordered(filteredUsers, column, old(sortOrder))
      ensures sortOrder == Flip(old(sortOrder))
      ensures users == old(users) && searchTerm == old(searchTerm)
    {
      var sortedUsers := SortedBy(filteredUsers, column, sortOrder);
      filteredUsers := sortedUsers;
      sortOrder := Flip(sortOrder);
    }

    /** `handleFilter`: `input` is the text in the search box. */
    method HandleFilter(input: string, loc: Locale)
      requires Valid()
      modifies this
      ensures Valid()
      ensures searchTerm == Lower(input)
      ensures filteredUsers == SearchResults(users, searchTerm, loc)
      ensures users == old(users) && sortOrder == old(sortOrder)
    {
      var term := Lower(input);
      searchTerm := term;
      filteredUsers := SearchResults(users, term, loc);
    }

    /** `handleDateFilter`: `input` is the value of the date box. */
    method HandleDateFilter(input: string, loc: Locale)
      requires Valid()
      modifies this
      ensures Valid()
      ensures filteredUsers == DateResults(users, loc.parseDateInput(input), loc)
      ensures users == old(users) && sortOrder == old(sortOrder) && searchTerm == old(searchTerm)
    {
      var selectedDate := loc.parseDateInput(input);
      filteredUsers := DateResults(users, selectedDate, loc);
    }
  }
}

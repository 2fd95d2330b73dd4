/**
 * What `GET /api/notes` lists: the age selector resolved to an archive flag
 * and a lower time bound, and `findNotesByUserId` — owner, archive flag and a
 * strict `created > bound` filter, newest first.
 */
module Listing {
  import opened Seqs
  import opened Records

  /** Lower time bound chosen by the selector: the epoch, or a number of months back. */
  datatype Since = Epoch | MonthsBack(months: nat)

  datatype AgeQuery = AgeQuery(archived: bool, since: Since)

  /** `new Date("1970-01-01")`, in milliseconds. */
  const EpochMillis: Timestamp := 0

  /** `Number(v[0])`: the month count is the selector's leading decimal digit. */
  function MonthCount(selector: string): (months: nat)
    requires |selector| > 0 && '0' <= selector[0] <= '9'
    ensures months <= 9
    ensures selector[0] == '0' + months as char
  {
    selector[0] as int - '0' as int
  }

  /**
   * The age selector of the query string: `archive` lists archived notes
   * with no time bound, `1month` and `3months` list active notes newer than
   * that many months back, anything else lists all active notes.
   */
  function ResolveAge(selector: string): (q: AgeQuery)
    ensures selector == "archive" ==> q == AgeQuery(true, Epoch)
    ensures selector == "1month" ==> q == AgeQuery(false, MonthsBack(1))
    ensures selector == "3months" ==> q == AgeQuery(false, MonthsBack(3))
    ensures selector != "archive" && selector != "1month" && selector != "3months" ==>
              q == AgeQuery(false, Epoch)
  {
    AgeQuery(
      selector == "archive",
      if selector == "1month" || selector == "3months" then MonthsBack(MonthCount(selector)) else Epoch)
  }

  /**
   * The timestamp the listing compares against. `startingMonth(m)` stands for
   * `getStartingMonth`: the wall-clock date moved back to a week anchor and
   * then `m` calendar months; it is an uninterpreted parameter.
   */
  function LowerBound(since: Since, startingMonth: nat -> Timestamp): Timestamp {
    match since
    case Epoch => EpochMillis
    case MonthsBack(m) => startingMonth(m)
  }

  /** The `find` filter: owner, exact archive flag, created strictly after the bound. */
  predicate IsListed(n: Note, userId: UserId, archived: bool, bound: Timestamp) {
    n.userId == userId && n.isArchived == archived && n.created > bound
  }

  /** `created` is non-increasing along the sequence. */
  ghost predicate NewestFirst(s: seq<Note>) {
    forall i, j :: 0 <= i < j < |s| ==> s[i].created >= s[j].created
  }

  /** Place `n` after every note at least as new, so equal timestamps keep their order. */
  function InsertByCreated(n: Note, s: seq<Note>): (r: seq<Note>)
    ensures multiset(r) == multiset(s) + multiset{n}
    ensures forall x :: x in r <==> x in s || x == n
  {
    if s == [] then [n]
    else if s[0].created >= n.created then
      assert s == [s[0]] + s[1..];
      [s[0]] + InsertByCreated(n, s[1..])
    else
      [n] + s
  }

  lemma {:induction false} InsertKeepsOrder(n: Note, s: seq<Note>)
    requires NewestFirst(s)
    ensures NewestFirst(InsertByCreated(n, s))
  {
    if s != [] && s[0].created >= n.created {
      var rest := InsertByCreated(n, s[1..]);
      InsertKeepsOrder(n, s[1..]);
      var r := [s[0]] + rest;
      forall i, j | 0 <= i < j < |r|
        ensures r[i].created >= r[j].created
      {
        if i == 0 {
          assert r[j] in rest;
          if r[j] != n {
            var k :| 0 <= k < |s[1..]| && s[1..][k] == r[j];
            assert s[k + 1] == r[j];
          }
        } else {
          assert r[i] == rest[i - 1] && r[j] == rest[j - 1];
        }
      }
    }
  }

  /** `.sort({ created: -1 })`, modelled as a stable insertion sort. */
  function SortNewestFirst(s: seq<Note>): (r: seq<Note>)
    ensures multiset(r) == multiset(s)
    ensures NewestFirst(r)
  {
    if s == [] then []
    else
      var sorted := SortNewestFirst(s[..|s| - 1]);
      InsertKeepsOrder(s[|s| - 1], sorted);
      assert s == s[..|s| - 1] + [s[|s| - 1]];
      InsertByCreated(s[|s| - 1], sorted)
  }

  /** `findNotesByUserId(db, "notes", userId, isArchived, age)`. */
  function FindNotesByUserId(notes: seq<Note>, userId: UserId, archived: bool, bound: Timestamp): (r: seq<Note>)
    ensures forall n :: multiset(r)[n] == if IsListed(n, userId, archived, bound) then multiset(notes)[n] else 0
    ensures forall n :: n in r <==> n in notes && IsListed(n, userId, archived, bound)
    ensures NewestFirst(r)
  {
    SortNewestFirst(Filter(notes, n => IsListed(n, userId, archived, bound)))
  }
}

/** The read-through cache of callers (lookup.c:104-179, 779-803). The table is a sequence of
    rows; an insert appends one row or fails without a change. */
module CallerCache {
  import opened Machine

  datatype Details = Details(name: string, city: string, street: string, postalcode: string)
  datatype Row = Row(number: string, details: Details)

  /** One lookup and what the world answers to it: the online source's answer, and whether an
      insert succeeds. */
  datatype Query = Query(number: string, online: Option<Details>, stored: bool)

  /** `select ... where number=? limit 1`. */
  function Find(rows: seq<Row>, number: string): Option<Details> {
    if rows == [] then None
    else if rows[0].number == number then Some(rows[0].details)
    else Find(rows[1..], number)
  }

  function Answer(rows: seq<Row>, q: Query): Option<Details> {
    if Find(rows, q.number).Some? then Find(rows, q.number) else q.online
  }

  function After(rows: seq<Row>, q: Query): seq<Row> {
    if Find(rows, q.number).None? && q.online.Some? && q.stored then rows + [Row(q.number, q.online.value)]
    else rows
  }

  /** What one lookup changes: a number is cached with the online answer when there is one, it
      was not cached, and storing it works; nothing else is ever stored or changed. */
  lemma OneLookup(rows: seq<Row>, q: Query, number: string)
    ensures Answer(rows, q) == if Find(rows, q.number).Some? then Find(rows, q.number) else q.online
    ensures Find(After(rows, q), number)
         == if number == q.number && Find(rows, number).None? && q.stored then q.online else Find(rows, number)
    ensures rows <= After(rows, q) && |After(rows, q)| <= |rows| + 1
    ensures Find(rows, q.number).Some? || q.online.None? || !q.stored ==> After(rows, q) == rows
  {
    if q.online.Some? {
      FindAppend(rows, Row(q.number, q.online.value), number);
    }
  }

  function AfterAll(rows: seq<Row>, qs: seq<Query>): seq<Row>
    decreases |qs|
  {
    if qs == [] then rows else AfterAll(After(rows, qs[0]), qs[1..])
  }

  predicate DistinctNumbers(rows: seq<Row>) {
    forall i, j | 0 <= i < j < |rows| :: rows[i].number != rows[j].number
  }

  lemma {:induction false} FindNone(rows: seq<Row>, number: string)
    ensures Find(rows, number).None? <==> forall i | 0 <= i < |rows| :: rows[i].number != number
  {
    if rows != [] {
      FindNone(rows[1..], number);
      assert forall i | 1 <= i < |rows| :: rows[i] == rows[1..][i - 1];
    }
  }

  lemma {:induction false} FindAppend(rows: seq<Row>, r: Row, number: string)
    ensures Find(rows + [r], number)
         == if Find(rows, number).Some? then Find(rows, number)
            else if r.number == number then Some(r.details) else None
  {
    if rows == [] {
      assert (rows + [r])[1..] == [];
    } else {
      assert (rows + [r])[1..] == rows[1..] + [r];
      FindAppend(rows[1..], r, number);
    }
  }

  /** A cached answer is never changed or lost. */
  lemma {:induction false} CachedStays(rows: seq<Row>, qs: seq<Query>, number: string)
    requires Find(rows, number).Some?
    ensures Find(AfterAll(rows, qs), number) == Find(rows, number)
    decreases |qs|
  {
    if qs != [] {
      if qs[0].online.Some? {
        FindAppend(rows, Row(qs[0].number, qs[0].online.value), number);
      }
      CachedStays(After(rows, qs[0]), qs[1..], number);
    }
  }

  lemma {:induction false} NumbersStayDistinct(rows: seq<Row>, qs: seq<Query>)
    requires DistinctNumbers(rows)
    ensures DistinctNumbers(AfterAll(rows, qs))
    decreases |qs|
  {
    if qs != [] {
      FindNone(rows, qs[0].number);
      NumbersStayDistinct(After(rows, qs[0]), qs[1..]);
    }
  }

  lemma {:induction false} AfterAllConcat(rows: seq<Row>, a: seq<Query>, b: seq<Query>)
    ensures AfterAll(rows, a + b) == AfterAll(AfterAll(rows, a), b)
    decreases |a|
  {
    if a == [] {
      assert a + b == b;
    } else {
      assert (a + b)[1..] == a[1..] + b;
      AfterAllConcat(After(rows, a[0]), a[1..], b);
    }
  }

  /** Over any run of lookups from an empty cache: numbers are stored once, and once an online
      answer for a number has been stored, every later lookup of the number returns it,
      whatever the online source would say by then. */
  lemma FirstAnswerStands(before: seq<Query>, q: Query, between: seq<Query>, later: Query)
    requires later.number == q.number
    requires Find(AfterAll([], before), q.number).None? && q.online.Some?
    ensures DistinctNumbers(AfterAll([], before + [q] + between))
    ensures Answer(AfterAll([], before), q) == q.online
    ensures q.stored ==> Answer(AfterAll([], before + [q] + between), later) == q.online
    ensures q.stored ==> After(AfterAll([], before + [q] + between), later) == AfterAll([], before + [q] + between)
  {
    NumbersStayDistinct([], before + [q] + between);
    if q.stored {
      var rows := AfterAll([], before);
      AfterAllConcat([], before, [q]);
      AfterOne(rows, q);
      AfterAllConcat([], before + [q], between);
      FindAppend(rows, Row(q.number, q.online.value), q.number);
      CachedStays(After(rows, q), between, q.number);
    }
  }

  lemma AfterOne(rows: seq<Row>, q: Query)
    ensures AfterAll(rows, [q]) == After(rows, q)
  {
    assert [q][1..] == [];
  }

  class Cache {
    var rows: seq<Row>

    constructor ()
      ensures rows == []
    {
      rows := [];
    }

    method FindCaller(number: string) returns (found: Option<Details>)
      ensures found == Find(rows, number)
    {
      var i := 0;
      assert rows[0..] == rows;
      while i < |rows|
        invariant 0 <= i <= |rows| && Find(rows, number) == Find(rows[i..], number)
      {
        if rows[i].number == number {
          return Some(rows[i].details);
        }
        assert rows[i..][1..] == rows[i + 1..];
        i := i + 1;
      }
      found := None;
    }

    method InsertCaller(row: Row, stored: bool) returns (rc: int)
      modifies this
      ensures rows == if stored then old(rows) + [row] else old(rows)
      ensures rc == if stored then 0 else 1
    {
      rc := 1;
      if stored {
        rows := rows + [row];
        rc := 0;
      }
    }

    /** `lookup_get_caller_data`: the cache, then the online source; its answer is stored and the
        result of storing it is ignored. */
    method GetCallerData(q: Query) returns (rc: int, details: Option<Details>)
      modifies this
      ensures details == Answer(old(rows), q) && rows == After(old(rows), q)
      ensures rc == if details.Some? then 0 else 1
    {
      details := FindCaller(q.number);
      if details.None? {
        details := q.online;
        if q.online.Some? {
          var inserted := InsertCaller(Row(q.number, q.online.value), q.stored);
        }
      }
      rc := if details.Some? then 0 else 1;
    }
  }
}

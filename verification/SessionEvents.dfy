/** Session audit events, the reader that orders them by `seq`, and what makes a
    command unfinished or a question unanswered. */
module SessionEvents {
  import opened Jsonl

  datatype Kind =
    | CommandStart
    | CommandEnd
    | Status(status: string)
    | Approval(action: string, subject: string)
    | Output
    | Chatter

  /** What else an event carries; `quotesStart` says that one of its texts is the
      very word by which the trim knows the start of a command. */
  datatype Body = Body(quotesStart: bool, rest: nat)

  const PLAIN := Body(false, 0)

  /** One event; `num` (the `seq` field) is absent only in a JSON line no logger wrote. */
  datatype Event = Event(num: Option<nat>, kind: Kind, body: Body)

  // ---------------------------------------------------------------- order

  lemma SameMembers(a: seq<Event>, b: seq<Event>)
    requires multiset(a) == multiset(b)
    ensures forall e :: e in a <==> e in b
  {
    forall e
      ensures e in a <==> e in b
    {
      assert e in a <==> e in multiset(a);
      assert e in b <==> e in multiset(b);
    }
  }

  /** An event without a number sorts after every numbered one. */
  predicate NotAfter(a: Event, b: Event) {
    b.num.None? || (a.num.Some? && a.num.value <= b.num.value)
  }

  function Insert(es: seq<Event>, e: Event): seq<Event> {
    var n := |es| - 1;
    if |es| == 0 || NotAfter(es[n], e) then es + [e]
    else Insert(es[..n], e) + [es[n]]
  }

  /** What a reader returns: a stable sort of the events on disk. */
  function Read(es: seq<Event>): seq<Event> {
    if |es| == 0 then [] else Insert(Read(es[..|es| - 1]), es[|es| - 1])
  }

  lemma InsertMembers(es: seq<Event>, e: Event)
    ensures multiset(Insert(es, e)) == multiset(es) + multiset{e}
    ensures forall x :: x in Insert(es, e) <==> x in es || x == e
  {
    var n := |es| - 1;
    if |es| > 0 && !NotAfter(es[n], e) {
      assert es == es[..n] + [es[n]];
      InsertMembers(es[..n], e);
    }
    SameMembers(Insert(es, e), es + [e]);
  }

  lemma {:induction false} ReadPermutes(es: seq<Event>)
    ensures multiset(Read(es)) == multiset(es)
    ensures forall x :: x in Read(es) <==> x in es
    decreases |es|
  {
    if |es| > 0 {
      var n := |es| - 1;
      assert es == es[..n] + [es[n]];
      ReadPermutes(es[..n]);
      InsertMembers(Read(es[..n]), es[n]);
    }
    SameMembers(Read(es), es);
  }

  predicate Ordered(es: seq<Event>) {
    forall i, j | 0 <= i < j < |es| :: NotAfter(es[i], es[j])
  }

  lemma InsertOrdered(es: seq<Event>, e: Event)
    requires Ordered(es)
    ensures Ordered(Insert(es, e))
  {
    var n := |es| - 1;
    if !(|es| == 0 || NotAfter(es[n], e)) {
      var front := Insert(es[..n], e);
      InsertOrdered(es[..n], e);
      InsertMembers(es[..n], e);
      assert forall x | x in front :: NotAfter(x, es[n]);
    }
  }

  lemma {:induction false} ReadOrdered(es: seq<Event>)
    ensures Ordered(Read(es))
    decreases |es|
  {
    if |es| > 0 {
      ReadOrdered(es[..|es| - 1]);
      InsertOrdered(Read(es[..|es| - 1]), es[|es| - 1]);
    }
  }

  // ---------------------------------------------------------------- numbers

  predicate AllNumbered(es: seq<Event>) {
    forall e | e in es :: e.num.Some?
  }

  /** No number is used twice. */
  predicate DistinctNumbers(es: seq<Event>) {
    forall i, j | 0 <= i < j < |es| :: es[i].num != es[j].num
  }

  predicate Increasing(es: seq<Event>) {
    forall i, j | 0 <= i < j < |es| ::
      es[i].num.Some? && es[j].num.Some? && es[i].num.value < es[j].num.value
  }

  function MaxSeq(es: seq<Event>): (m: nat)
    ensures forall e | e in es && e.num.Some? :: e.num.value <= m
    ensures m == 0 || exists e | e in es :: e.num == Some(m)
  {
    if |es| == 0 then 0
    else
      var n := |es| - 1;
      var rest := MaxSeq(es[..n]);
      assert es == es[..n] + [es[n]];
      if es[n].num.Some? && es[n].num.value > rest then es[n].num.value else rest
  }

  lemma InsertDistinct(es: seq<Event>, e: Event)
    requires DistinctNumbers(es) && forall x | x in es :: x.num != e.num
    ensures DistinctNumbers(Insert(es, e))
  {
    var n := |es| - 1;
    if !(|es| == 0 || NotAfter(es[n], e)) {
      InsertDistinct(es[..n], e);
      InsertMembers(es[..n], e);
      forall x | x in Insert(es[..n], e)
        ensures x.num != es[n].num
      {
        if x in es[..n] {
          var i :| 0 <= i < n && es[i] == x;
        }
      }
    }
  }

  lemma {:induction false} ReadDistinct(es: seq<Event>)
    requires DistinctNumbers(es)
    ensures DistinctNumbers(Read(es))
    decreases |es|
  {
    if |es| > 0 {
      var n := |es| - 1;
      ReadDistinct(es[..n]);
      ReadPermutes(es[..n]);
      forall x | x in Read(es[..n])
        ensures x.num != es[n].num
      {
        var i :| 0 <= i < n && es[i] == x;
      }
      InsertDistinct(Read(es[..n]), es[n]);
    }
  }

  /** WHATEVER ORDER THE BYTES LANDED IN: when no number is used twice, the
      reader's result is a strictly increasing permutation of the file. */
  lemma ReadIncreasing(es: seq<Event>)
    requires AllNumbered(es) && DistinctNumbers(es)
    ensures Increasing(Read(es)) && multiset(Read(es)) == multiset(es)
  {
    ReadOrdered(es);
    ReadDistinct(es);
    ReadPermutes(es);
    var r := Read(es);
    forall i, j | 0 <= i < j < |r|
      ensures r[i].num.Some? && r[j].num.Some? && r[i].num.value < r[j].num.value
    {
      assert r[i] in r && r[j] in r;
      assert NotAfter(r[i], r[j]);
    }
  }

  lemma LastIsGreatest(a: seq<Event>, e: Event)
    requires Increasing(a) && AllNumbered(a) && e in a
    ensures e == a[|a| - 1] || (e in a[..|a| - 1] && e.num.Some? && a[|a| - 1].num.Some?
                                && e.num.value < a[|a| - 1].num.value)
  {
    var i :| 0 <= i < |a| && a[i] == e;
    if i < |a| - 1 {
      assert a[..|a| - 1][i] == e;
    }
  }

  /** An increasing list is determined by its members. */
  lemma {:induction false} IncreasingUnique(a: seq<Event>, b: seq<Event>)
    requires Increasing(a) && Increasing(b) && AllNumbered(a) && AllNumbered(b)
    requires forall e :: e in a <==> e in b
    ensures a == b
    decreases |a|
  {
    if |a| == 0 {
      var e0 := if |b| > 0 then b[0] else Event(None, Chatter, PLAIN);
      assert |b| > 0 ==> e0 in b;
    } else {
      var m, n := |a| - 1, |b| - 1;
      assert a[m] in a && a[m] in b && b[n] in b;
      LastIsGreatest(a, b[n]);
      LastIsGreatest(b, a[m]);
      forall e
        ensures e in a[..m] <==> e in b[..n]
      {
        if e in a[..m] {
          FrontMember(a, e);
          LastIsGreatest(b, e);
        }
        if e in b[..n] {
          FrontMember(b, e);
          LastIsGreatest(a, e);
        }
      }
      FrontOf(a);
      FrontOf(b);
      IncreasingUnique(a[..m], b[..n]);
      assert a == a[..m] + [a[m]] && b == b[..n] + [b[n]];
    }
  }

  lemma FrontMember(a: seq<Event>, e: Event)
    requires Increasing(a) && AllNumbered(a) && |a| > 0 && e in a[..|a| - 1]
    ensures e in a && e != a[|a| - 1]
  {
    var k :| 0 <= k < |a| - 1 && a[k] == e;
  }

  lemma FrontOf(a: seq<Event>)
    requires Increasing(a) && AllNumbered(a) && |a| > 0
    ensures Increasing(a[..|a| - 1]) && AllNumbered(a[..|a| - 1])
  {
    forall e | e in a[..|a| - 1]
      ensures e in a
    {
    }
  }
}

/** The audit log: cursor pagination on the server over a stream that keeps growing, and the
    cursor stack of the admin client. */
module AuditPaging {
  import opened Basics

  /** A stream entry's ID, ordered by time and then by sequence number. */
  datatype Id = Id(ms: nat, number: nat)

  predicate Less(a: Id, b: Id) {
    a.ms < b.ms || (a.ms == b.ms && a.number < b.number)
  }

  /** A stream of events, oldest first. */
  ghost predicate Sorted(stream: seq<Id>) {
    forall i, j :: 0 <= i < j < |stream| ==> Less(stream[i], stream[j])
  }

  function Reverse(s: seq<Id>): (r: seq<Id>)
    ensures |r| == |s|
    ensures forall i :: 0 <= i < |s| ==> r[i] == s[|s| - 1 - i]
  {
    seq(|s|, i requires 0 <= i < |s| => s[|s| - 1 - i])
  }

  function Min(a: nat, b: nat): nat {
    if a < b then a else b
  }

  /** How many events come before the cursor; `None` is the end of the stream. */
  function Below(stream: seq<Id>, before: Option<Id>): (n: nat)
    ensures n <= |stream|
  {
    if before.None? || stream == [] || Less(stream[|stream| - 1], before.value) then |stream|
    else Below(stream[..|stream| - 1], before)
  }

  /** XREVRANGE with an exclusive start and a count. */
  function XRevRange(stream: seq<Id>, before: Option<Id>, count: nat): seq<Id> {
    var found := Reverse(stream[..Below(stream, before)]);
    found[..Min(count, |found|)]
  }

  datatype Page = Page(events: seq<Id>, next: Option<Id>)

  /** The `before` parameter of a request. */
  datatype Cursor = Omitted | Malformed | At(id: Id)

  function Limit(requested: int): (n: nat)
    ensures 1 <= n <= 200
    ensures 1 <= requested <= 200 ==> n == requested
  {
    if requested < 1 || requested > 200 then 25 else requested
  }

  /** The page that belongs to a cursor: the newest `limit` events below it, and a further cursor
      exactly when older ones remain. */
  function PageOf(stream: seq<Id>, before: Option<Id>, limit: nat): Page
    requires limit >= 1
  {
    var n := Below(stream, before);
    if n > limit then Page(Reverse(stream[n - limit..n]), Some(stream[n - limit]))
    else Page(Reverse(stream[..n]), None)
  }

  lemma NewestFirst(s: seq<Id>, k: nat)
    requires k <= |s|
    ensures Reverse(s)[..k] == Reverse(s[|s| - k..])
  {
  }

  lemma ExtraEventShowsMore(stream: seq<Id>, before: Option<Id>, limit: nat)
    requires limit >= 1
    ensures var messages, page := XRevRange(stream, before, limit + 1), PageOf(stream, before, limit);
            && (page.next.Some? <==> |messages| > limit)
            && page.events == messages[..Min(limit, |messages|)]
            && (page.next.Some? ==> page.next == Some(messages[limit - 1]))
  {
    hide Below, Less;
    var n := Below(stream, before);
    var found, messages := stream[..n], XRevRange(stream, before, limit + 1);
    if n > limit {
      NewestFirst(found, limit);
      assert found[n - limit..] == stream[n - limit..n];
      assert messages[..limit] == Reverse(found)[..limit];
    } else {
      assert messages == Reverse(found);
    }
  }

  /** listAudit: ask for one event more than the page holds, to see whether there are more. */
  method ListAudit(stream: seq<Id>, requested: int, before: Cursor) returns (page: Option<Page>)
    ensures page.None? <==> before.Malformed?
    ensures before.Omitted? ==> page == Some(PageOf(stream, None, Limit(requested)))
    ensures before.At? ==> page == Some(PageOf(stream, Some(before.id), Limit(requested)))
  {
    hide PageOf, XRevRange, Below;
    if before.Malformed? {
      return None;
    }
    var limit := Limit(requested);
    var start := if before.At? then Some(before.id) else None;
    var messages := XRevRange(stream, start, limit + 1);
    ExtraEventShowsMore(stream, start, limit);
    var hasMore := |messages| > limit;
    if hasMore {
      messages := messages[..limit];
    }
    var entries: seq<Id> := [];
    var i := 0;
    while i < |messages|
      invariant 0 <= i <= |messages|
      invariant entries == messages[..i]
    {
      entries := entries + [messages[i]];
      i := i + 1;
    }
    assert entries == messages;
    var next := None;
    if hasMore && |entries| > 0 {
      next := Some(entries[|entries| - 1]);
    }
    page := Some(Page(entries, next));
  }

  // ---------------------------------------------------------------------------
  // Following the cursors

  /** What comes before a cursor are the events with smaller IDs. */
  lemma {:induction false} BelowMeaning(stream: seq<Id>, before: Id, i: nat)
    requires Sorted(stream) && i < |stream|
    ensures i < Below(stream, Some(before)) <==> Less(stream[i], before)
    decreases |stream|
  {
    var n := |stream| - 1;
    assert i < n ==> Less(stream[i], stream[n]);
    if !Less(stream[n], before) && i < n {
      BelowMeaning(stream[..n], before, i);
    }
  }

  /** Later events do not change what is below a cursor. */
  lemma {:induction false} BelowCursor(stream: seq<Id>, i: nat)
    requires Sorted(stream) && i < |stream|
    ensures Below(stream, Some(stream[i])) == i
    decreases |stream|
  {
    var n := |stream| - 1;
    if i < n {
      assert !Less(stream[n], stream[i]) by { assert Less(stream[i], stream[n]); }
      BelowCursor(stream[..n], i);
      assert stream[..n][i] == stream[i];
    } else if n > 0 {
      assert Less(stream[..n][n - 1], stream[n]);
    }
  }

  /** A page further on is a page of the stream as it was at the first request. */
  lemma PageOnGrownStream(first: seq<Id>, now: seq<Id>, i: nat, limit: nat)
    requires Sorted(now) && first <= now && i < |first| && limit >= 1
    ensures PageOf(now, Some(first[i]), limit) ==
            if i > limit then Page(Reverse(first[i - limit..i]), Some(first[i - limit])) else Page(Reverse(first[..i]), None)
  {
    assert now[i] == first[i];
    BelowCursor(now, i);
    if i > limit {
      assert now[i - limit..i] == first[i - limit..i];
    } else {
      assert now[..i] == first[..i];
    }
  }

  /** Request pages until no cursor comes back; `streams` are the stream's contents at the
      successive requests. */
  function Follow(streams: seq<seq<Id>>, before: Option<Id>, limit: nat): seq<Id>
    requires limit >= 1
    decreases |streams|
  {
    if streams == [] then [] else
    var page := PageOf(streams[0], before, limit);
    if page.next.None? then page.events else page.events + Follow(streams[1..], page.next, limit)
  }

  /** The last of the requests is answered without a cursor. */
  predicate Ends(streams: seq<seq<Id>>, before: Option<Id>, limit: nat)
    requires limit >= 1
    decreases |streams|
  {
    streams != [] &&
    var page := PageOf(streams[0], before, limit);
    page.next.None? || Ends(streams[1..], page.next, limit)
  }

  lemma ReverseSplit(s: seq<Id>, k: nat)
    requires k <= |s|
    ensures Reverse(s[k..]) + Reverse(s[..k]) == Reverse(s)
  {
  }

  lemma PagesLeft(pages: nat, limit: nat, n: nat)
    requires pages * limit >= n > limit >= 1
    ensures pages > 1 && (pages - 1) * limit >= n - limit
  {
    assert pages * limit == (pages - 1) * limit + limit;
  }

  lemma {:induction false} FollowFrom(first: seq<Id>, streams: seq<seq<Id>>, i: nat, limit: nat)
    requires limit >= 1 && i < |first| && |streams| * limit >= i && streams != []
    requires forall k :: 0 <= k < |streams| ==> Sorted(streams[k]) && first <= streams[k]
    ensures Follow(streams, Some(first[i]), limit) == Reverse(first[..i])
    ensures Ends(streams, Some(first[i]), limit)
    decreases |streams|
  {
    hide Below, Less;
    PageOnGrownStream(first, streams[0], i, limit);
    if i > limit {
      PagesLeft(|streams|, limit, i);
      FollowFrom(first, streams[1..], i - limit, limit);
      ReverseSplit(first[..i], i - limit);
      assert first[..i][i - limit..] == first[i - limit..i] && first[..i][..i - limit] == first[..i - limit];
    }
  }

  lemma FirstPage(stream: seq<Id>, limit: nat)
    requires limit >= 1
    ensures var n := |stream|;
            PageOf(stream, None, limit) ==
            if n > limit then Page(Reverse(stream[n - limit..]), Some(stream[n - limit])) else Page(Reverse(stream), None)
  {
    var n := |stream|;
    assert stream[..n] == stream;
    if n > limit {
      assert stream[n - limit..n] == stream[n - limit..];
    }
  }

  /** Paging refines a full scan: from the first page on, whatever is appended in the meantime,
      following the cursors yields every event present at the first request exactly once,
      newest first, and ends after no more requests than pages are needed. */
  lemma PagingRefinesScan(streams: seq<seq<Id>>, limit: nat)
    requires limit >= 1 && streams != [] && |streams| * limit >= |streams[0]|
    requires forall k :: 0 <= k < |streams| ==> Sorted(streams[k]) && streams[0] <= streams[k]
    ensures Follow(streams, None, limit) == Reverse(streams[0]) && Ends(streams, None, limit)
  {
    hide PageOf, Below, Less, Sorted;
    var first := streams[0];
    var n := |first|;
    FirstPage(first, limit);
    if n > limit {
      PagesLeft(|streams|, limit, n);
      FollowFrom(first, streams[1..], n - limit, limit);
      ReverseSplit(first, n - limit);
    }
  }

  // ---------------------------------------------------------------------------
  // The client's cursor stack

  /** Cursors sent and returned; the empty string is `None`. */
  type Answers = set<(Option<Id>, Id)>

  /** auditCursors and auditPage. */
  datatype View = View(cursors: seq<Option<Id>>, page: nat)

  /** Index p holds the cursor that opens page p: the first opens at the end of the stream, and
      each other was the answer to the one before. */
  ghost predicate Stacked(v: View, answers: Answers) {
    && v.cursors != [] && v.cursors[0] == None
    && forall p :: 0 < p < |v.cursors| ==> v.cursors[p].Some? && (v.cursors[p - 1], v.cursors[p].value) in answers
  }

  /** The state after the answer to a request for `page`. */
  function Arrived(v: View, page: nat, next: Option<Id>): View {
    var kept := v.cursors[..Min(page + 1, |v.cursors|)];
    View(if next.Some? then kept + [next] else kept, page)
  }

  /** The cursor the stack has, on arrival, for the page that was requested. */
  function Remembered(v: View, page: nat): Option<Id>
    requires v.cursors != []
  {
    v.cursors[Min(page, |v.cursors| - 1)]
  }

  /** What starting a load makes of the view: a load without a page starts over. */
  function Requested(v: View, wanted: Option<int>): View {
    if wanted.None? then v.(cursors := [None]) else v
  }

  /** The request that is sent, if the page has a cursor. */
  function Sent(v: View, wanted: Option<int>): Option<Load> {
    if wanted.None? then Some(Load(0, None))
    else if 0 <= wanted.value < |v.cursors| then Some(Load(wanted.value, v.cursors[wanted.value]))
    else None
  }

  /** A request in flight. */
  datatype Load = Load(page: nat, cursor: Option<Id>)

  class AuditView {
    var cursors: seq<Option<Id>>
    var page: nat

    ghost function Contents(): View
      reads this
    {
      View(cursors, page)
    }

    constructor ()
      ensures Contents() == View([None], 0)
    {
      cursors, page := [None], 0;
    }

    /** The first half of loadAudit, up to the request: a call without a page starts over, and a
        page that has no cursor is not requested. */
    method Request(wanted: Option<int>) returns (sent: Option<Load>)
      modifies this`cursors
      ensures Contents() == Requested(old(Contents()), wanted) && sent == Sent(old(Contents()), wanted)
      ensures wanted.None? ==> cursors == [None] && sent == Some(Load(0, None))
      ensures wanted.Some? ==> cursors == old(cursors)
      ensures wanted.Some? ==> (sent.Some? <==> 0 <= wanted.value < |cursors|)
      ensures wanted.Some? && sent.Some? ==> sent.value == Load(wanted.value, cursors[wanted.value])
    {
      var target := 0;
      if wanted.None? {
        cursors := [None];
      } else {
        target := wanted.value;
      }
      if target < 0 || target >= |cursors| {
        return None;
      }
      sent := Some(Load(target, cursors[target]));
    }

    /** The second half, when the answer arrives. */
    method Arrive(target: nat, next: Option<Id>)
      modifies this
      ensures Contents() == Arrived(old(Contents()), target, next)
    {
      page := target;
      cursors := cursors[..Min(target + 1, |cursors|)];
      if next.Some? {
        cursors := cursors + [next];
      }
    }

    /** A load whose answer arrives before anything else happens keeps the stack right. */
    method LoadAudit(wanted: Option<int>, stream: seq<Id>, ghost answers: Answers) returns (ghost grown: Answers)
      requires Stacked(Contents(), answers)
      modifies this
      ensures answers <= grown && Stacked(Contents(), grown)
      ensures wanted.None? ==> Contents() == Arrived(View([None], old(page)), 0, PageOf(stream, None, 25).next)
      ensures wanted.Some? && 0 <= wanted.value < |old(cursors)| ==>
        Contents() == Arrived(old(Contents()), wanted.value, PageOf(stream, old(cursors)[wanted.value], 25).next)
      ensures wanted.Some? && !(0 <= wanted.value < |old(cursors)|) ==> Contents() == old(Contents())
    {
      grown := answers;
      var sent := Request(wanted);
      if sent.Some? {
        var target, cursor := sent.value.page, sent.value.cursor;
        var answer := ListAudit(stream, 25, if cursor.None? then Omitted else At(cursor.value));
        if answer.value.next.Some? {
          grown := grown + {(cursor, answer.value.next.value)};
        }
        ArrivalKeepsStack(Contents(), answers, target, cursor, answer.value.next);
        Arrive(target, answer.value.next);
      }
    }
  }

  lemma ArrivalKeepsStack(v: View, answers: Answers, page: nat, cursor: Option<Id>, next: Option<Id>)
    requires Stacked(v, answers) && Remembered(v, page) == cursor
    ensures Stacked(Arrived(v, page, next), if next.Some? then answers + {(cursor, next.value)} else answers)
  {
  }

  /** With loads that overlap, an arriving cursor keeps the stack right exactly when the cursor the
      stack has for the page requested is the one that was sent, or has had the same answer. */
  lemma ArrivalKeepsStackExactly(v: View, answers: Answers, page: nat, cursor: Option<Id>, next: Id)
    requires Stacked(v, answers)
    ensures Stacked(Arrived(v, page, Some(next)), answers + {(cursor, next)}) <==>
            Remembered(v, page) == cursor || (Remembered(v, page), next) in answers
  {
    var kept := v.cursors[..Min(page + 1, |v.cursors|)];
    var w := Arrived(v, page, Some(next));
    assert w.cursors[|kept| - 1] == Remembered(v, page) && w.cursors[|kept|] == Some(next);
  }

  /** The second case occurs: when enough events are appended, a cursor into the longer stream
      opens the page that ended the first page of the shorter one. */
  lemma OneCursorAnswersTwo(short: seq<Id>, long: seq<Id>, limit: nat)
    requires Sorted(long) && short < long && limit >= 1 && |short| > limit
    ensures PageOf(long, Some(long[|short|]), limit).next == PageOf(short, None, limit).next
    ensures PageOf(short, None, limit).next.Some?
  {
    hide Less, Sorted;
    BelowCursor(long, |short|);
    FirstPage(short, limit);
  }

  /** A refresh while page 2 is on its way is such a case: the cursor of page 3 ends up as that
      of page 1. */
  lemma OverlappingLoadsMisplaceCursor(a: Id, b: Id, c: Id)
    requires a != b && b != c && a != c
    ensures var answers: Answers := {(None, a), (Some(a), b), (Some(b), c)};
            var before := View([None, Some(a), Some(b)], 1);
            var refreshed := View([None], 1);
            && Stacked(before, answers) && Stacked(refreshed, answers)
            && Arrived(refreshed, 2, Some(c)) == View([None, Some(c)], 2)
            && !Stacked(Arrived(refreshed, 2, Some(c)), answers)
  {
    var w := Arrived(View([None], 1), 2, Some(c));
    assert w.cursors[0] == None && w.cursors[1] == Some(c);
  }

  // ---------------------------------------------------------------------------
  // Runs of overlapping loads

  /** The view, the answers so far, and the requests in flight. */
  datatype Client = Client(view: View, answers: Answers, loads: map<nat, Load>)

  /** A load is started, its answer arrives with or without a further cursor, or it fails. */
  datatype Event =
    | Start(load: nat, wanted: Option<int>)
    | Answer(load: nat, next: Option<Id>)
    | Fail(load: nat)

  function Act(c: Client, e: Event): Client {
    match e
    case Start(n, wanted) =>
      var sent := Sent(c.view, wanted);
      if n in c.loads then c
      else c.(view := Requested(c.view, wanted), loads := if sent.Some? then c.loads[n := sent.value] else c.loads)
    case Answer(n, next) =>
      if n !in c.loads then c else
      Client(Arrived(c.view, c.loads[n].page, next),
             if next.Some? then c.answers + {(c.loads[n].cursor, next.value)} else c.answers,
             c.loads - {n})
    case Fail(n) => c.(loads := c.loads - {n})
  }

  function Acts(c: Client, es: seq<Event>): Client
    decreases |es|
  {
    if es == [] then c else Act(Acts(c, es[..|es| - 1]), es[|es| - 1])
  }

  const OPENED := Client(View([None], 0), {}, map[])

  ghost predicate Right(c: Client) {
    Stacked(c.view, c.answers)
  }

  /** The answer brings a cursor for a page whose place in the stack has been taken by another
      cursor that has not had this answer. */
  predicate Stale(c: Client, e: Event)
    requires c.view.cursors != []
  {
    && e.Answer? && e.load in c.loads && e.next.Some?
    && var remembered := Remembered(c.view, c.loads[e.load].page);
       remembered != c.loads[e.load].cursor && (remembered, e.next.value) !in c.answers
  }

  lemma ActKeepsRightExactly(c: Client, e: Event)
    requires Right(c)
    ensures Right(Act(c, e)) <==> !Stale(c, e)
  {
    if e.Answer? && e.load in c.loads && e.next.Some? {
      ArrivalKeepsStackExactly(c.view, c.answers, c.loads[e.load].page, c.loads[e.load].cursor, e.next.value);
    }
  }

  ghost predicate RightThroughout(es: seq<Event>) {
    forall k :: 0 <= k <= |es| ==> Right(Acts(OPENED, es[..k]))
  }

  ghost predicate StaleArrival(es: seq<Event>, k: int) {
    && 0 <= k < |es| && Right(Acts(OPENED, es[..k])) && Stale(Acts(OPENED, es[..k]), es[k])
  }

  lemma ActsNext(es: seq<Event>, k: nat)
    requires k < |es|
    ensures Acts(OPENED, es[..k + 1]) == Act(Acts(OPENED, es[..k]), es[k])
  {
    assert es[..k + 1][..k] == es[..k];
  }

  lemma {:induction false} WrongHasACause(es: seq<Event>, k: nat)
    requires k <= |es| && !Right(Acts(OPENED, es[..k]))
    ensures exists j :: StaleArrival(es, j)
  {
    hide Act, Right, Stale;
    OpenedRight();
    assert es[..0] == [];
    if k > 0 && Right(Acts(OPENED, es[..k - 1])) {
      ActsNext(es, k - 1);
      ActKeepsRightExactly(Acts(OPENED, es[..k - 1]), es[k - 1]);
      assert StaleArrival(es, k - 1);
    } else if k > 0 {
      WrongHasACause(es, k - 1);
    }
  }

  lemma OpenedRight()
    ensures Right(OPENED)
  {
  }

  /** Over every run of overlapping loads, the stack holds at each index the cursor that opens that
      page, all the time, if and only if no answer was stale when it arrived on a right stack. */
  lemma StackRightExactly(es: seq<Event>)
    ensures RightThroughout(es) <==> !exists k :: StaleArrival(es, k)
  {
    hide Acts, Act, Right, Stale;
    if k :| StaleArrival(es, k) {
      ActsNext(es, k);
      ActKeepsRightExactly(Acts(OPENED, es[..k]), es[k]);
      assert !Right(Acts(OPENED, es[..k + 1]));
    }
    if !RightThroughout(es) {
      var k :| 0 <= k <= |es| && !Right(Acts(OPENED, es[..k]));
      WrongHasACause(es, k);
    }
  }
}

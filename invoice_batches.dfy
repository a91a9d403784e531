/**
 * Ad-hoc invoicing (issueInvoice): the month's batch title, the lookup of an
 * existing batch by title, the month boundaries, and find-or-create over the
 * store of invoice batches.  Storage, form processing and the invoice-total
 * recomputation are represented by appending an invoice record to the batch.
 */
module InvoiceBatches {
  import opened Wrappers
  import opened Calendar

  /** strftime('%b'): the C-locale month abbreviation. */
  function MonthAbbrev(m: int): (r: string)
    requires 1 <= m <= 12
    ensures |r| == 3
  {
    ["Jan", "Feb", "Mar", "Apr", "May", "Jun", "Jul", "Aug", "Sep", "Oct", "Nov", "Dec"][m - 1]
  }

  function DigitChar(d: nat): char
    requires d < 10
  {
    "0123456789"[d]
  }

  /** Decimal representation of a year, as strftime('%Y') writes it. */
  function YearString(n: nat): (r: string)
    ensures |r| >= 1
    ensures n >= 10 ==> |r| >= 2
  {
    if n < 10 then [DigitChar(n)] else YearString(n / 10) + [DigitChar(n % 10)]
  }

  /** '<Mon> <Year> - ad hoc' */
  function BatchTitle(year: nat, month: int): (r: string)
    requires 1 <= month <= 12
    ensures |r| == 13 + |YearString(year)|
    ensures r[..3] == MonthAbbrev(month) && r[3] == ' '
    ensures r[4..|r| - 9] == YearString(year) && r[|r| - 9..] == " - ad hoc"
  {
    MonthAbbrev(month) + " " + YearString(year) + " - ad hoc"
  }

  /** An invoice of a client's orders attached to a batch. */
  datatype Invoice = Invoice(clientUid: string, requestIds: seq<string>)

  datatype InvoiceBatch = InvoiceBatch(id: nat, title: string, start: Date, end: Date, invoices: seq<Invoice>)

  predicate UniqueTitles(batches: seq<InvoiceBatch>) {
    forall i, j :: 0 <= i < j < |batches| ==> batches[i].title != batches[j].title
  }

  predicate HasTitle(batches: seq<InvoiceBatch>, title: string) {
    exists i :: 0 <= i < |batches| && batches[i].title == title
  }

  /** The catalog loop: the LAST batch carrying the title, if any. */
  method FindByTitle(batches: seq<InvoiceBatch>, title: string) returns (found: Option<nat>)
    ensures found.None? <==> !HasTitle(batches, title)
    ensures found.Some? ==>
              (found.value < |batches| && batches[found.value].title == title
               && forall j :: found.value < j < |batches| ==> batches[j].title != title)
  {
    found := None;
    var i := 0;
    while i < |batches|
      invariant 0 <= i <= |batches|
      invariant found.None? <==> forall j :: 0 <= j < i ==> batches[j].title != title
      invariant found.Some? ==>
                  (found.value < i && batches[found.value].title == title
                   && forall j :: found.value < j < i ==> batches[j].title != title)
    {
      if batches[i].title == title {
        found := Some(i);
      }
      i := i + 1;
    }
  }

  /** The month's last day: from day 1 plus 31 days, step back one day at a
      time until the month is the current one again. */
  method LastDayOfMonth(year: int, month: int) returns (last: Date)
    requires 1 <= month <= 12
    ensures last == Date(year, month, DaysInMonth(year, month))
  {
    var firstDay := Date(year, month, 1);
    var len := DaysInMonth(year, month);
    var (ny, nm) := NextMonth(year, month);
    last := AddDays(firstDay, 31);
    FirstPlus31(year, month);
    while last.month != month
      invariant ValidDate(last)
      invariant last == Date(year, month, len) || (last.year == ny && last.month == nm && 1 <= last.day <= 32 - len)
      decreases last.month != month, last.day
    {
      last := PrevDay(last);
    }
  }

  class InvoiceStore {
    var batches: seq<InvoiceBatch>
    /** Source of fresh batch ids (generateUniqueId). */
    var nextId: nat

    constructor ()
      ensures batches == [] && nextId == 0
    {
      batches := [];
      nextId := 0;
    }

    /** issueInvoice: reuse the month's ad-hoc batch (the last one found by
        title) or create it with the month's boundaries, then attach the
        order's invoice to it.  Returns the batch's position in the store. */
    method IssueInvoice(now: Date, clientUid: string, requestId: string) returns (k: nat)
      requires ValidDate(now) && now.year >= 0
      modifies this
      ensures var title := BatchTitle(now.year, now.month);
              && k < |batches| && batches[k].title == title
              && (HasTitle(old(batches), title) ==>
                    && |batches| == |old(batches)| && nextId == old(nextId)
                    && k < |old(batches)| && old(batches)[k].title == title
                    && (forall j :: k < j < |old(batches)| ==> old(batches)[j].title != title)
                    && batches[k] == old(batches)[k].(invoices := old(batches)[k].invoices + [Invoice(clientUid, [requestId])]))
              && (!HasTitle(old(batches), title) ==>
                    && |batches| == |old(batches)| + 1 && k == |old(batches)| && nextId == old(nextId) + 1
                    && batches[k] == InvoiceBatch(old(nextId), title, Date(now.year, now.month, 1),
                                                  Date(now.year, now.month, DaysInMonth(now.year, now.month)),
                                                  [Invoice(clientUid, [requestId])]))
      ensures forall j :: 0 <= j < |old(batches)| && j != k ==> batches[j] == old(batches)[j]
      ensures UniqueTitles(old(batches)) ==> UniqueTitles(batches)
    {
      var title := BatchTitle(now.year, now.month);
      var found := FindByTitle(batches, title);
      if found.None? {
        var start := Date(now.year, now.month, 1);
        var end := LastDayOfMonth(now.year, now.month);
        var batch := InvoiceBatch(nextId, title, start, end, []);
        nextId := nextId + 1;
        batches := batches + [batch];
        k := |batches| - 1;
      } else {
        k := found.value;
      }
      var b := batches[k];
      batches := batches[k := b.(invoices := b.invoices + [Invoice(clientUid, [requestId])])];
    }
  }

  /** A second call in the same month finds the batch the first one created
      or reused and creates nothing new. */
  method IssueTwiceSameMonth(store: InvoiceStore, now: Date, later: Date, clientUid: string, requestIds: (string, string))
    returns (first: nat, second: nat)
    requires ValidDate(now) && ValidDate(later) && now.year >= 0
    requires later.year == now.year && later.month == now.month
    modifies store
    ensures first == second
    ensures |store.batches| <= |old(store.batches)| + 1
    ensures UniqueTitles(old(store.batches)) ==> UniqueTitles(store.batches)
  {
    first := store.IssueInvoice(now, clientUid, requestIds.0);
    ghost var mid := store.batches;
    second := store.IssueInvoice(later, clientUid, requestIds.1);
    assert HasTitle(mid, BatchTitle(now.year, now.month));
  }

  // ---------------------------------------------------------------------
  // Properties

  lemma MonthAbbrevInjective(m1: int, m2: int)
    requires 1 <= m1 <= 12 && 1 <= m2 <= 12
    requires MonthAbbrev(m1) == MonthAbbrev(m2)
    ensures m1 == m2
  {
    var names := ["Jan", "Feb", "Mar", "Apr", "May", "Jun", "Jul", "Aug", "Sep", "Oct", "Nov", "Dec"];
    assert forall i, j :: 0 <= i < j < 12 ==> names[i] != names[j];
  }

  lemma {:induction false} YearStringInjective(a: nat, b: nat)
    requires YearString(a) == YearString(b)
    ensures a == b
    decreases a
  {
    var sa, sb := YearString(a), YearString(b);
    if a < 10 && b < 10 {
      assert sa[0] == DigitChar(a) && sb[0] == DigitChar(b);
    } else if a >= 10 && b >= 10 {
      assert sa[|sa| - 1] == DigitChar(a % 10) && sb[|sb| - 1] == DigitChar(b % 10);
      assert sa[..|sa| - 1] == YearString(a / 10);
      assert sb[..|sb| - 1] == YearString(b / 10);
      YearStringInjective(a / 10, b / 10);
    }
  }

  /** Distinct months have distinct batch titles, so looking a batch up by
      title finds only the batch of that month. */
  lemma BatchTitleInjective(y1: nat, m1: int, y2: nat, m2: int)
    requires 1 <= m1 <= 12 && 1 <= m2 <= 12
    requires BatchTitle(y1, m1) == BatchTitle(y2, m2)
    ensures y1 == y2 && m1 == m2
  {
    var t1, t2 := BatchTitle(y1, m1), BatchTitle(y2, m2);
    var suffix := " - ad hoc";
    assert t1[..3] == MonthAbbrev(m1) && t2[..3] == MonthAbbrev(m2);
    MonthAbbrevInjective(m1, m2);
    assert t1[4..|t1| - |suffix|] == YearString(y1);
    assert t2[4..|t2| - |suffix|] == YearString(y2);
    YearStringInjective(y1, y2);
  }

  /** The batches of two different months have disjoint date ranges: one
      ends before the other starts. */
  lemma MonthRangesDisjoint(y1: int, m1: int, y2: int, m2: int)
    requires 1 <= m1 <= 12 && 1 <= m2 <= 12 && (y1, m1) != (y2, m2)
    ensures Before(Date(y1, m1, DaysInMonth(y1, m1)), Date(y2, m2, 1))
            || Before(Date(y2, m2, DaysInMonth(y2, m2)), Date(y1, m1, 1))
  {
  }
}

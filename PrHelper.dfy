/**
 * The feedback filter of the pull-request helper: from the reviews, inline
 * comments and issue comments of a pull request, keep those newer than a
 * given ISO-8601 instant, tag each kept one with its category, and count them
 * per category.
 */
module PrHelper {
  import opened Wrappers
  import opened PyStr

  /** A JSON value as it can appear under the keys the filter reads. */
  datatype Value = Null | Str(s: string)

  /** One feedback object (a JSON object). */
  type Item = map<string, Value>

  /** The three lists fetched for a pull request. */
  datatype Feedback = Feedback(reviews: seq<Item>, inlineComments: seq<Item>, issueComments: seq<Item>)

  datatype Counts = Counts(reviews: nat, inline: nat, general: nat)

  const ReviewLabel := "review_summary"
  const InlineLabel := "inline_comment"
  const IssueLabel := "issue_comment"

  /** `item.get(key)`: `None` when absent. */
  function Get(item: Item, key: string): Value {
    if key in item then item[key] else Null
  }

  /** A value Python treats as true: a non-empty string. */
  predicate IsTruthy(v: Value) { v.Str? && v.s != "" }

  /** `item.get('submitted_at') or item.get('updated_at') or
      item.get('created_at')`, kept only when truthy. */
  function Timestamp(item: Item): (ts: Option<string>)
    ensures ts.None? <==>
              !IsTruthy(Get(item, "submitted_at")) && !IsTruthy(Get(item, "updated_at"))
              && !IsTruthy(Get(item, "created_at"))
    ensures IsTruthy(Get(item, "submitted_at")) ==> ts == Some(Get(item, "submitted_at").s)
    ensures !IsTruthy(Get(item, "submitted_at")) && IsTruthy(Get(item, "updated_at")) ==>
              ts == Some(Get(item, "updated_at").s)
    ensures !IsTruthy(Get(item, "submitted_at")) && !IsTruthy(Get(item, "updated_at"))
            && IsTruthy(Get(item, "created_at")) ==>
              ts == Some(Get(item, "created_at").s)
    ensures ts.Some? ==> ts.value != ""
  {
    if IsTruthy(Get(item, "submitted_at")) then Some(Get(item, "submitted_at").s)
    else if IsTruthy(Get(item, "updated_at")) then Some(Get(item, "updated_at").s)
    else if IsTruthy(Get(item, "created_at")) then Some(Get(item, "created_at").s)
    else None
  }

  /** `ts and ts > since_iso`, comparing strings lexicographically. */
  predicate Kept(item: Item, since: string) {
    Timestamp(item).Some? && LexLess(since, Timestamp(item).value)
  }

  /** `{**item, '_type': label}` */
  function Tagged(item: Item, kind: string): (r: Item)
    ensures r.Keys == item.Keys + {"_type"}
    ensures r["_type"] == Str(kind)
    ensures forall k :: k in item && k != "_type" ==> r[k] == item[k]
  {
    item["_type" := Str(kind)]
  }

  /** The items of one list that are kept, tagged with `kind`, in order. */
  function Selected(items: seq<Item>, kind: string, since: string): seq<Item> {
    if items == [] then []
    else
      var last := items[|items| - 1];
      Selected(items[..|items| - 1], kind, since) + (if Kept(last, since) then [Tagged(last, kind)] else [])
  }

  /** How many items carry `_type == kind`. */
  function CountLabel(items: seq<Item>, kind: string): nat {
    if items == [] then 0
    else (if "_type" in items[0] && items[0]["_type"] == Str(kind) then 1 else 0)
         + CountLabel(items[1..], kind)
  }

  /** The state `process_items` shares with its caller: the list that every
      call appends to. */
  class FeedbackFilter {
    var newItems: seq<Item>

    constructor ()
      ensures newItems == []
    {
      newItems := [];
    }

    /** `process_items(items, kind)`: appends the kept items of the list,
        tagged, and returns how many it appended. */
    method ProcessItems(items: seq<Item>, kind: string, since: string) returns (count: nat)
      modifies this
      ensures newItems == old(newItems) + Selected(items, kind, since)
      ensures count == |Selected(items, kind, since)|
    {
      count := 0;
      var i := 0;
      while i < |items|
        invariant 0 <= i <= |items|
        invariant newItems == old(newItems) + Selected(items[..i], kind, since)
        invariant count == |Selected(items[..i], kind, since)|
      {
        var item := items[i];
        var ts := Timestamp(item);
        assert items[..i + 1][..i] == items[..i];
        if ts.Some? && LexLess(since, ts.value) {
          newItems := newItems + [item["_type" := Str(kind)]];
          count := count + 1;
        }
        i := i + 1;
      }
      assert items[..|items|] == items;
    }
  }

  /** `filter_feedback_since`: reviews, then inline comments, then issue
      comments, each filtered and tagged, and the number kept of each. */
  method FilterFeedbackSince(feedback: Feedback, since: string) returns (newItems: seq<Item>, counts: Counts)
    ensures newItems == Selected(feedback.reviews, ReviewLabel, since)
                        + Selected(feedback.inlineComments, InlineLabel, since)
                        + Selected(feedback.issueComments, IssueLabel, since)
    ensures counts == Counts(|Selected(feedback.reviews, ReviewLabel, since)|,
                             |Selected(feedback.inlineComments, InlineLabel, since)|,
                             |Selected(feedback.issueComments, IssueLabel, since)|)
  {
    var filter := new FeedbackFilter();
    var reviews := filter.ProcessItems(feedback.reviews, ReviewLabel, since);
    var inline := filter.ProcessItems(feedback.inlineComments, InlineLabel, since);
    var general := filter.ProcessItems(feedback.issueComments, IssueLabel, since);
    counts := Counts(reviews, inline, general);
    newItems := filter.newItems;
  }

  // ---------------------------------------------------------------------
  // Properties of the selection
  // ---------------------------------------------------------------------

  /** Tagging does not change the timestamp. */
  lemma TaggedKeepsTimestamp(item: Item, kind: string)
    ensures Timestamp(Tagged(item, kind)) == Timestamp(item)
  {
    var r := Tagged(item, kind);
    assert Get(r, "submitted_at") == Get(item, "submitted_at");
    assert Get(r, "updated_at") == Get(item, "updated_at");
    assert Get(r, "created_at") == Get(item, "created_at");
  }

  /** An item is selected exactly when it is in the list and kept; what is
      emitted for it is the item tagged with the kind. */
  lemma {:induction false} SelectedMembers(items: seq<Item>, kind: string, since: string, y: Item)
    ensures y in Selected(items, kind, since) <==>
              exists x :: x in items && Kept(x, since) && y == Tagged(x, kind)
  {
    if items != [] {
      var init, last := items[..|items| - 1], items[|items| - 1];
      SelectedMembers(init, kind, since, y);
      assert items == init + [last];
      if y in Selected(items, kind, since) && !(y in Selected(init, kind, since)) {
        assert last in items;
      }
      if exists x :: x in items && Kept(x, since) && y == Tagged(x, kind) {
        var x :| x in items && Kept(x, since) && y == Tagged(x, kind);
        if x != last {
          assert x in init;
        }
      }
    }
  }

  /** Every emitted item is strictly newer than `since` and carries the kind
      of its list. */
  lemma SelectedAreNewer(items: seq<Item>, kind: string, since: string, y: Item)
    requires y in Selected(items, kind, since)
    ensures Timestamp(y).Some? && LexLess(since, Timestamp(y).value)
    ensures "_type" in y && y["_type"] == Str(kind)
  {
    SelectedMembers(items, kind, since, y);
    var x :| x in items && Kept(x, since) && y == Tagged(x, kind);
    TaggedKeepsTimestamp(x, kind);
  }

  /** An item stamped exactly `since`, or with no timestamp, is not emitted. */
  lemma NotNewerIsDropped(since: string, x: Item)
    requires Timestamp(x) == Some(since) || Timestamp(x).None?
    ensures !Kept(x, since)
  {
    LexLessIrreflexive(since);
  }

  /** Selection works item by item: it distributes over concatenation, so
      the input order is kept. */
  lemma {:induction false} SelectedConcat(a: seq<Item>, b: seq<Item>, kind: string, since: string)
    ensures Selected(a + b, kind, since) == Selected(a, kind, since) + Selected(b, kind, since)
    decreases |b|
  {
    if b == [] {
      assert a + b == a;
    } else {
      var init, last := b[..|b| - 1], b[|b| - 1];
      assert (a + b)[..|a + b| - 1] == a + init;
      assert (a + b)[|a + b| - 1] == last;
      SelectedConcat(a, init, kind, since);
    }
  }

  lemma {:induction false} CountLabelConcat(a: seq<Item>, b: seq<Item>, kind: string)
    ensures CountLabel(a + b, kind) == CountLabel(a, kind) + CountLabel(b, kind)
  {
    if a == [] {
      assert a + b == b;
    } else {
      assert (a + b)[0] == a[0] && (a + b)[1..] == a[1..] + b;
      CountLabelConcat(a[1..], b, kind);
    }
  }

  /** Everything emitted for one list carries that list's kind, and no
      other. */
  lemma {:induction false} CountLabelSelected(items: seq<Item>, kind: string, other: string, since: string)
    ensures CountLabel(Selected(items, kind, since), kind) == |Selected(items, kind, since)|
    ensures other != kind ==> CountLabel(Selected(items, kind, since), other) == 0
  {
    if items != [] {
      var init, last := items[..|items| - 1], items[|items| - 1];
      CountLabelSelected(init, kind, other, since);
      var tail := if Kept(last, since) then [Tagged(last, kind)] else [];
      CountLabelConcat(Selected(init, kind, since), tail, kind);
      CountLabelConcat(Selected(init, kind, since), tail, other);
      if tail != [] {
        assert tail[1..] == [];
      }
    }
  }

  /** Each count is the number of emitted items with its kind, and the
      counts add up to the number of emitted items. */
  lemma CountsMatchLabels(feedback: Feedback, since: string, newItems: seq<Item>, counts: Counts)
    requires newItems == Selected(feedback.reviews, ReviewLabel, since)
                         + Selected(feedback.inlineComments, InlineLabel, since)
                         + Selected(feedback.issueComments, IssueLabel, since)
    requires counts == Counts(|Selected(feedback.reviews, ReviewLabel, since)|,
                              |Selected(feedback.inlineComments, InlineLabel, since)|,
                              |Selected(feedback.issueComments, IssueLabel, since)|)
    ensures counts.reviews == CountLabel(newItems, ReviewLabel)
    ensures counts.inline == CountLabel(newItems, InlineLabel)
    ensures counts.general == CountLabel(newItems, IssueLabel)
    ensures counts.reviews + counts.inline + counts.general == |newItems|
  {
    var r := Selected(feedback.reviews, ReviewLabel, since);
    var n := Selected(feedback.inlineComments, InlineLabel, since);
    var g := Selected(feedback.issueComments, IssueLabel, since);
    CountLabelConcat(r + n, g, ReviewLabel);
    CountLabelConcat(r + n, g, InlineLabel);
    CountLabelConcat(r + n, g, IssueLabel);
    CountLabelConcat(r, n, ReviewLabel);
    CountLabelConcat(r, n, InlineLabel);
    CountLabelConcat(r, n, IssueLabel);
    CountLabelSelected(feedback.reviews, ReviewLabel, InlineLabel, since);
    CountLabelSelected(feedback.reviews, ReviewLabel, IssueLabel, since);
    CountLabelSelected(feedback.inlineComments, InlineLabel, ReviewLabel, since);
    CountLabelSelected(feedback.inlineComments, InlineLabel, IssueLabel, since);
    CountLabelSelected(feedback.issueComments, IssueLabel, ReviewLabel, since);
    CountLabelSelected(feedback.issueComments, IssueLabel, InlineLabel, since);
  }
}

/** The thread layout of an open chat: date separators and runs of messages from one sender, as
    the rendering loop builds them. A message's date label is a parameter (`dayOf(date)`), since
    the real one depends on the clock and the locale. */
module Grouping {
  import opened Wrappers
  import opened Strings
  import opened Model

  /** One element of the message list: a date separator or a group of consecutive messages. */
  datatype Item = Separator(title: string) | Group(members: seq<Message>)

  /** Message `i` gets a separator before it: its label differs from the previous message's, or
      from "" for the first message. */
  predicate DayBreak(msgs: seq<Message>, dayOf: string -> string, i: nat)
    requires i < |msgs|
  {
    dayOf(msgs[i].date) != (if i == 0 then "" else dayOf(msgs[i - 1].date))
  }

  /** Message `i` opens a new group: after a separator, at the start, on a change of `from_id`
      (absent and present told apart), or when it is a reply. */
  predicate GroupBreak(msgs: seq<Message>, dayOf: string -> string, i: nat)
    requires i < |msgs|
  {
    DayBreak(msgs, dayOf, i) || i == 0 || msgs[i].fromId != msgs[i - 1].fromId || IsReply(msgs[i])
  }

  /** The layout of `msgs`, message by message: a day break adds a separator and a new group, a
      group break adds a new group, anything else joins the last group. */
  function Layout(msgs: seq<Message>, dayOf: string -> string): (items: seq<Item>)
    ensures msgs == [] ==> items == []
    ensures msgs != [] ==> (items != [] && Last(items).Group? && Last(items).members != []
      && Last(Last(items).members) == Last(msgs))
    decreases |msgs|
  {
    if msgs == [] then []
    else
      var i := |msgs| - 1;
      var m := msgs[i];
      var before := Layout(msgs[..i], dayOf);
      if DayBreak(msgs, dayOf, i) then before + [Separator(dayOf(m.date)), Group([m])]
      else if GroupBreak(msgs, dayOf, i) then before + [Group([m])]
      else Join(before, m)
  }

  /** How the layout of one more message extends the layout of the ones before it. */
  lemma LayoutStep(msgs: seq<Message>, dayOf: string -> string, k: nat)
    requires k < |msgs|
    ensures DayBreak(msgs, dayOf, k) ==> (Layout(msgs[..k + 1], dayOf)
      == Layout(msgs[..k], dayOf) + [Separator(dayOf(msgs[k].date)), Group([msgs[k]])])
    ensures !DayBreak(msgs, dayOf, k) && GroupBreak(msgs, dayOf, k) ==> (Layout(msgs[..k + 1], dayOf)
      == Layout(msgs[..k], dayOf) + [Group([msgs[k]])])
    ensures !GroupBreak(msgs, dayOf, k) ==> (k > 0 && Last(msgs[..k]) == msgs[k - 1]
      && Layout(msgs[..k + 1], dayOf) == Join(Layout(msgs[..k], dayOf), msgs[k]))
  {
    var p := msgs[..k + 1];
    assert p[..k] == msgs[..k] && p[k] == msgs[k];
    assert k > 0 ==> p[k - 1] == msgs[k - 1];
    assert DayBreak(p, dayOf, k) == DayBreak(msgs, dayOf, k);
    assert GroupBreak(p, dayOf, k) == GroupBreak(msgs, dayOf, k);
  }

  /** The last group with `m` added. */
  function Join(items: seq<Item>, m: Message): seq<Item>
    requires items != [] && Last(items).Group?
  {
    items[..|items| - 1] + [Group(Last(items).members + [m])]
  }

  /** The items emitted so far followed by the group still being collected: also what flushing
      the group (`if (messageGroup.length > 0) appendChild(...)`) leaves. */
  function Pending(items: seq<Item>, group: seq<Message>): seq<Item> {
    items + (if group == [] then [] else [Group(group)])
  }

  /** Adding a message to the pending group extends the last group of the layout. */
  lemma PendingJoin(items: seq<Item>, group: seq<Message>, m: Message)
    requires group != []
    ensures Pending(items, group) != [] && Last(Pending(items, group)).Group?
    ensures Join(Pending(items, group), m) == Pending(items, group + [m])
  {
    var p := Pending(items, group);
    assert p[..|p| - 1] == items;
  }

  /** The three ways one more message extends the layout, stated on the emitted items and the
      pending group. */
  lemma StepNewDay(msgs: seq<Message>, dayOf: string -> string, k: nat, items: seq<Item>, group: seq<Message>)
    requires k < |msgs| && Layout(msgs[..k], dayOf) == Pending(items, group) && DayBreak(msgs, dayOf, k)
    ensures Layout(msgs[..k + 1], dayOf) == Pending(Pending(items, group) + [Separator(dayOf(msgs[k].date))], [msgs[k]])
  {
    LayoutStep(msgs, dayOf, k);
  }

  lemma StepNewGroup(msgs: seq<Message>, dayOf: string -> string, k: nat, items: seq<Item>, group: seq<Message>)
    requires k < |msgs| && Layout(msgs[..k], dayOf) == Pending(items, group)
    requires !DayBreak(msgs, dayOf, k) && GroupBreak(msgs, dayOf, k)
    ensures Layout(msgs[..k + 1], dayOf) == Pending(Pending(items, group), [msgs[k]])
  {
    LayoutStep(msgs, dayOf, k);
  }

  lemma StepJoin(msgs: seq<Message>, dayOf: string -> string, k: nat, items: seq<Item>, group: seq<Message>)
    requires k < |msgs| && Layout(msgs[..k], dayOf) == Pending(items, group) && group != []
    requires !GroupBreak(msgs, dayOf, k)
    ensures Layout(msgs[..k + 1], dayOf) == Pending(items, group + [msgs[k]])
  {
    LayoutStep(msgs, dayOf, k);
    PendingJoin(items, group, msgs[k]);
  }

  /** `renderChat`'s loop: `lastDate` starts as "", `lastSender` as null; a new label flushes the
      group, emits a separator and resets the sender; a message joins the group only when its
      `from_id` is identical to `lastSender` and it is not a reply. */
  method RenderChat(msgs: seq<Message>, dayOf: string -> string) returns (items: seq<Item>)
    ensures items == Layout(msgs, dayOf)
  {
    var lastDate := "";
    var lastSender: Option<SenderId> := None;
    var group: seq<Message> := [];
    items := [];
    for k := 0 to |msgs|
      invariant Layout(msgs[..k], dayOf) == Pending(items, group)
      invariant k == 0 <==> group == []
      invariant lastDate == (if k == 0 then "" else dayOf(msgs[k - 1].date))
      invariant lastSender == (if k == 0 then None else Some(msgs[k - 1].fromId))
    {
      var m := msgs[k];
      ghost var items0, group0 := items, group;
      var d := dayOf(m.date);
      if d != lastDate {
        items := Pending(items, group) + [Separator(d)];
        group := [];
        lastDate := d;
        lastSender := None;
      }
      if lastSender == Some(m.fromId) && !IsReply(m) {
        assert k > 0 && d == lastDate && items == items0 && group == group0;
        assert Some(msgs[k - 1].fromId) == Some(m.fromId);
        StepJoin(msgs, dayOf, k, items, group);
        group := group + [m];
      } else {
        if DayBreak(msgs, dayOf, k) {
          StepNewDay(msgs, dayOf, k, items0, group0);
        } else {
          StepNewGroup(msgs, dayOf, k, items, group);
        }
        items := Pending(items, group);
        group := [m];
        lastSender := Some(m.fromId);
      }
    }
    assert msgs[..|msgs|] == msgs;
    items := Pending(items, group);
  }

  // ---------------------------------------------------------------------------------------------
  // What the layout promises

  /** The messages of the groups, concatenated in order. */
  function Flatten(items: seq<Item>): seq<Message> {
    if items == [] then []
    else Flatten(items[..|items| - 1]) + (match Last(items) case Separator(_) => [] case Group(g) => g)
  }

  lemma {:induction false} FlattenConcat(a: seq<Item>, b: seq<Item>)
    ensures Flatten(a + b) == Flatten(a) + Flatten(b)
    decreases |b|
  {
    if b == [] {
      assert a + b == a;
    } else {
      assert (a + b)[..|a + b| - 1] == a + b[..|b| - 1];
      FlattenConcat(a, b[..|b| - 1]);
    }
  }

  lemma FlattenGroup(g: seq<Message>)
    ensures Flatten([Group(g)]) == g
  {
    assert [Group(g)][..0] == [];
  }

  lemma FlattenNewDay(title: string, m: Message)
    ensures Flatten([Separator(title), Group([m])]) == [m]
  {
    var tail := [Separator(title), Group([m])];
    var head := [Separator(title)];
    assert tail[..1] == head && head[..0] == [];
    assert Flatten(head) == [];
    assert Flatten(tail) == Flatten(head) + [m];
  }

  /** Nothing is lost, duplicated or reordered: the groups concatenate to the message list. */
  lemma {:induction false} LayoutFlatten(msgs: seq<Message>, dayOf: string -> string)
    ensures Flatten(Layout(msgs, dayOf)) == msgs
    decreases |msgs|
  {
    if msgs != [] {
      var i := |msgs| - 1;
      var m := msgs[i];
      assert msgs[..i] + [m] == msgs;
      LayoutFlatten(msgs[..i], dayOf);
      var before := Layout(msgs[..i], dayOf);
      if DayBreak(msgs, dayOf, i) {
        FlattenNewDay(dayOf(m.date), m);
        FlattenConcat(before, [Separator(dayOf(m.date)), Group([m])]);
      } else if GroupBreak(msgs, dayOf, i) {
        FlattenGroup([m]);
        FlattenConcat(before, [Group([m])]);
      } else {
        var rest := before[..|before| - 1];
        var g := Last(before).members;
        FlattenGroup(g + [m]);
        FlattenConcat(rest, [Group(g + [m])]);
        assert Flatten(before) == Flatten(rest) + g;
      }
    }
  }

  /** A group is non-empty, its messages share one `from_id` and one date label, and only its
      first message may be a reply. */
  predicate Homogeneous(g: seq<Message>, dayOf: string -> string) {
    g != [] && forall j :: 0 <= j < |g| ==>
      g[j].fromId == g[0].fromId && dayOf(g[j].date) == dayOf(g[0].date) && (j > 0 ==> !IsReply(g[j]))
  }

  predicate AllHomogeneous(items: seq<Item>, dayOf: string -> string) {
    forall k :: 0 <= k < |items| && items[k].Group? ==> Homogeneous(items[k].members, dayOf)
  }

  lemma {:induction false} LayoutGroups(msgs: seq<Message>, dayOf: string -> string)
    ensures AllHomogeneous(Layout(msgs, dayOf), dayOf)
    decreases |msgs|
  {
    if msgs != [] {
      var i := |msgs| - 1;
      var m := msgs[i];
      var before := Layout(msgs[..i], dayOf);
      LayoutGroups(msgs[..i], dayOf);
      LayoutStep(msgs, dayOf, i);
      assert msgs[..i + 1] == msgs;
      if DayBreak(msgs, dayOf, i) {
        AllHomogeneousAppend(before, [Separator(dayOf(m.date)), Group([m])], dayOf);
      } else if GroupBreak(msgs, dayOf, i) {
        AllHomogeneousAppend(before, [Group([m])], dayOf);
      } else {
        assert msgs[..i][i - 1] == msgs[i - 1];
        JoinHomogeneous(before, m, dayOf);
      }
    }
  }

  lemma AllHomogeneousAppend(a: seq<Item>, b: seq<Item>, dayOf: string -> string)
    requires AllHomogeneous(a, dayOf)
    requires forall k :: 0 <= k < |b| && b[k].Group? ==> |b[k].members| == 1
    ensures AllHomogeneous(a + b, dayOf)
  {
    var items := a + b;
    forall k | 0 <= k < |items| && items[k].Group? ensures Homogeneous(items[k].members, dayOf) {
      if k < |a| {
        assert items[k] == a[k];
      } else {
        assert items[k] == b[k - |a|];
      }
    }
  }

  /** Joining a message with the same `from_id` and label, and no reply, keeps the groups
      homogeneous. */
  lemma JoinHomogeneous(before: seq<Item>, m: Message, dayOf: string -> string)
    requires AllHomogeneous(before, dayOf) && before != [] && Last(before).Group? && Last(before).members != []
    requires m.fromId == Last(Last(before).members).fromId && !IsReply(m)
    requires dayOf(m.date) == dayOf(Last(Last(before).members).date)
    ensures AllHomogeneous(Join(before, m), dayOf)
  {
    var g := Last(before).members;
    assert Homogeneous(g, dayOf) by {
      assert before[|before| - 1] == Last(before);
    }
    HomogeneousExtend(g, m, dayOf);
    var items := Join(before, m);
    forall k | 0 <= k < |items| && items[k].Group? ensures Homogeneous(items[k].members, dayOf) {
      if k < |before| - 1 {
        assert items[k] == before[k];
      }
    }
  }

  lemma HomogeneousExtend(g: seq<Message>, m: Message, dayOf: string -> string)
    requires Homogeneous(g, dayOf)
    requires m.fromId == Last(g).fromId && dayOf(m.date) == dayOf(Last(g).date) && !IsReply(m)
    ensures Homogeneous(g + [m], dayOf)
  {
    var h := g + [m];
    forall j | 0 <= j < |h|
      ensures h[j].fromId == h[0].fromId && dayOf(h[j].date) == dayOf(h[0].date) && (j > 0 ==> !IsReply(h[j]))
    {
      if j < |g| {
        assert h[j] == g[j];
      } else {
        assert h[j] == m && g[|g| - 1] == Last(g);
      }
    }
  }

  /** The labels of the separators, in order. */
  function Separators(items: seq<Item>): seq<string> {
    if items == [] then []
    else Separators(items[..|items| - 1]) + (match Last(items) case Separator(l) => [l] case Group(_) => [])
  }

  /** The labels of the messages that have a day break before them, in order. */
  function DayLabels(msgs: seq<Message>, dayOf: string -> string): seq<string> {
    if msgs == [] then []
    else
      var i := |msgs| - 1;
      DayLabels(msgs[..i], dayOf) + (if DayBreak(msgs, dayOf, i) then [dayOf(msgs[i].date)] else [])
  }

  /** Every separator is directly followed by a group whose first message carries its label. */
  predicate SeparatorsLead(items: seq<Item>, dayOf: string -> string) {
    forall k :: 0 <= k < |items| && items[k].Separator? ==>
      k + 1 < |items| && items[k + 1].Group? && items[k + 1].members != []
      && dayOf(items[k + 1].members[0].date) == items[k].title
  }

  lemma SeparatorsPush(a: seq<Item>, it: Item)
    ensures Separators(a + [it]) == Separators(a) + (if it.Separator? then [it.title] else [])
  {
    assert (a + [it])[..|a|] == a;
  }

  /** A separator is emitted exactly before the messages whose label differs from the previous
      one (the first message included, unless its label is ""). */
  lemma {:induction false} LayoutSeparators(msgs: seq<Message>, dayOf: string -> string)
    ensures Separators(Layout(msgs, dayOf)) == DayLabels(msgs, dayOf)
    decreases |msgs|
  {
    if msgs != [] {
      var i := |msgs| - 1;
      var m := msgs[i];
      assert msgs[..i + 1] == msgs;
      var before := Layout(msgs[..i], dayOf);
      LayoutStep(msgs, dayOf, i);
      LayoutSeparators(msgs[..i], dayOf);
      if DayBreak(msgs, dayOf, i) {
        SeparatorsNewDay(before, dayOf(m.date), m);
      } else if GroupBreak(msgs, dayOf, i) {
        SeparatorsPush(before, Group([m]));
      } else {
        SeparatorsJoin(before, m);
      }
    }
  }

  lemma SeparatorsNewDay(before: seq<Item>, title: string, m: Message)
    ensures Separators(before + [Separator(title), Group([m])]) == Separators(before) + [title]
  {
    assert before + [Separator(title), Group([m])] == (before + [Separator(title)]) + [Group([m])];
    SeparatorsPush(before + [Separator(title)], Group([m]));
    SeparatorsPush(before, Separator(title));
  }

  lemma SeparatorsJoin(before: seq<Item>, m: Message)
    requires before != [] && Last(before).Group?
    ensures Separators(Join(before, m)) == Separators(before)
  {
    var rest := before[..|before| - 1];
    var g := Last(before).members;
    assert before == rest + [Group(g)];
    SeparatorsPush(rest, Group(g));
    SeparatorsPush(rest, Group(g + [m]));
  }

  lemma LeadNewDay(a: seq<Item>, title: string, m: Message, dayOf: string -> string)
    requires SeparatorsLead(a, dayOf) && dayOf(m.date) == title
    ensures SeparatorsLead(a + [Separator(title), Group([m])], dayOf)
  {
    var items := a + [Separator(title), Group([m])];
    forall k | 0 <= k < |items| && items[k].Separator?
      ensures k + 1 < |items| && items[k + 1].Group? && items[k + 1].members != []
        && dayOf(items[k + 1].members[0].date) == items[k].title
    {
      if k < |a| {
        assert items[k] == a[k];
        if k + 1 < |a| {
          assert items[k + 1] == a[k + 1];
        }
      }
    }
  }

  lemma LeadNewGroup(a: seq<Item>, m: Message, dayOf: string -> string)
    requires SeparatorsLead(a, dayOf)
    ensures SeparatorsLead(a + [Group([m])], dayOf)
  {
    var items := a + [Group([m])];
    forall k | 0 <= k < |items| && items[k].Separator?
      ensures k + 1 < |items| && items[k + 1].Group? && items[k + 1].members != []
        && dayOf(items[k + 1].members[0].date) == items[k].title
    {
      assert items[k] == a[k];
      if k + 1 < |a| {
        assert items[k + 1] == a[k + 1];
      }
    }
  }

  lemma LeadJoin(rest: seq<Item>, g: seq<Message>, m: Message, dayOf: string -> string)
    requires g != [] && SeparatorsLead(rest + [Group(g)], dayOf)
    ensures SeparatorsLead(rest + [Group(g + [m])], dayOf)
  {
    var a := rest + [Group(g)];
    var items := rest + [Group(g + [m])];
    forall k | 0 <= k < |items| && items[k].Separator?
      ensures k + 1 < |items| && items[k + 1].Group? && items[k + 1].members != []
        && dayOf(items[k + 1].members[0].date) == items[k].title
    {
      assert items[k] == a[k];
      if k + 1 < |rest| {
        assert items[k + 1] == a[k + 1];
      } else {
        assert a[k + 1] == Group(g);
        assert (g + [m])[0] == g[0];
      }
    }
  }

  /** Each separator leads a group that opens with a message of its label. */
  lemma {:induction false} LayoutLead(msgs: seq<Message>, dayOf: string -> string)
    ensures SeparatorsLead(Layout(msgs, dayOf), dayOf)
    decreases |msgs|
  {
    if msgs != [] {
      var i := |msgs| - 1;
      var m := msgs[i];
      assert msgs[..i + 1] == msgs;
      var before := Layout(msgs[..i], dayOf);
      LayoutStep(msgs, dayOf, i);
      LayoutLead(msgs[..i], dayOf);
      if DayBreak(msgs, dayOf, i) {
        LeadNewDay(before, dayOf(m.date), m, dayOf);
      } else if GroupBreak(msgs, dayOf, i) {
        LeadNewGroup(before, m, dayOf);
      } else {
        var rest := before[..|before| - 1];
        var g := Last(before).members;
        assert before == rest + [Group(g)];
        LeadJoin(rest, g, m, dayOf);
      }
    }
  }

  /** The first message of each group, in order. */
  function Heads(items: seq<Item>): seq<Message> {
    if items == [] then []
    else Heads(items[..|items| - 1]) + (match Last(items) case Separator(_) => [] case Group(g) => if g == [] then [] else [g[0]])
  }

  /** The messages that open a group, in order. */
  function BreakHeads(msgs: seq<Message>, dayOf: string -> string): seq<Message> {
    if msgs == [] then []
    else
      var i := |msgs| - 1;
      BreakHeads(msgs[..i], dayOf) + (if GroupBreak(msgs, dayOf, i) then [msgs[i]] else [])
  }

  lemma HeadsPush(a: seq<Item>, it: Item)
    ensures Heads(a + [it]) == Heads(a) + (if it.Group? && it.members != [] then [it.members[0]] else [])
  {
    assert (a + [it])[..|a|] == a;
  }

  lemma HeadsNewDay(a: seq<Item>, title: string, m: Message)
    ensures Heads(a + [Separator(title), Group([m])]) == Heads(a) + [m]
  {
    assert a + [Separator(title), Group([m])] == (a + [Separator(title)]) + [Group([m])];
    HeadsPush(a + [Separator(title)], Group([m]));
    HeadsPush(a, Separator(title));
  }

  lemma HeadsJoin(a: seq<Item>, m: Message)
    requires a != [] && Last(a).Group? && Last(a).members != []
    ensures Heads(Join(a, m)) == Heads(a)
  {
    var rest := a[..|a| - 1];
    var g := Last(a).members;
    assert a == rest + [Group(g)];
    assert (g + [m])[0] == g[0];
    HeadsPush(rest, Group(g));
    HeadsPush(rest, Group(g + [m]));
  }

  /** A new group starts exactly at the messages with a group break. */
  lemma {:induction false} LayoutHeads(msgs: seq<Message>, dayOf: string -> string)
    ensures Heads(Layout(msgs, dayOf)) == BreakHeads(msgs, dayOf)
    decreases |msgs|
  {
    if msgs != [] {
      var i := |msgs| - 1;
      var m := msgs[i];
      assert msgs[..i + 1] == msgs;
      var before := Layout(msgs[..i], dayOf);
      LayoutStep(msgs, dayOf, i);
      LayoutHeads(msgs[..i], dayOf);
      if DayBreak(msgs, dayOf, i) {
        HeadsNewDay(before, dayOf(m.date), m);
      } else if GroupBreak(msgs, dayOf, i) {
        HeadsPush(before, Group([m]));
      } else {
        HeadsJoin(before, m);
      }
    }
  }

}

/** The message list of a chat: consecutive messages of the same sender are
    shown as one group, and a message with an attached file is shown with
    the file's name in front of its text. */
module ChatMessages {
  import opened Wrappers

  datatype Attachment = Attachment(filename: string)

  /** A chat message as the list shows it. */
  datatype Message = Message(sender: string, content: string, file: Option<Attachment>)

  /** The groups written out one after the other. */
  function Flatten(groups: seq<seq<Message>>): seq<Message>
    decreases |groups|
  {
    if groups == [] then [] else Flatten(groups[..|groups| - 1]) + groups[|groups| - 1]
  }

  /** Every message of `g` has the sender of its first message. */
  predicate SameSender(g: seq<Message>) {
    forall j :: 0 <= j < |g| ==> g[j].sender == g[0].sender
  }

  /** The number of positions where the sender changes from the message
      before. */
  function SenderChanges(messages: seq<Message>): nat
    decreases |messages|
  {
    if |messages| <= 1 then 0
    else
      var n := |messages|;
      SenderChanges(messages[..n - 1]) + (if messages[n - 1].sender != messages[n - 2].sender then 1 else 0)
  }

  /** A grouping of `messages` into runs: the runs spell the messages, none
      is empty, each has one sender, and neighbouring runs have different
      senders. */
  predicate IsRunGrouping(groups: seq<seq<Message>>, messages: seq<Message>) {
    Flatten(groups) == messages
    && (forall j :: 0 <= j < |groups| ==> groups[j] != [] && SameSender(groups[j]))
    && (forall j :: 0 < j < |groups| ==> groups[j - 1][0].sender != groups[j][0].sender)
  }

  /** `groupMessages`: one pass over the messages; a message whose sender
      differs from the previous one (or the first message) closes the
      current group and opens a new one, any other message joins the
      current group; the last group is closed at the end. The result is the
      grouping into runs, with one group more than there are sender changes
      (none for no messages). */
  method GroupMessages(messages: seq<Message>) returns (grouped: seq<seq<Message>>)
    ensures IsRunGrouping(grouped, messages)
    ensures |grouped| == if messages == [] then 0 else 1 + SenderChanges(messages)
  {
    grouped := [];
    var currentGroup: seq<Message> := [];
    for index := 0 to |messages|
      invariant index == 0 ==> grouped == [] && currentGroup == []
      invariant index > 0 ==> currentGroup != [] && IsRunGrouping(grouped + [currentGroup], messages[..index])
      invariant index > 0 ==> |grouped| == SenderChanges(messages[..index])
    {
      var message := messages[index];
      PrefixStep(messages, index);
      if index == 0 {
        assert messages[..1] == [message];
        FlattenSnoc([], [message]);
        currentGroup := [message];
      } else if message.sender != messages[index - 1].sender {
        StartRun(grouped, currentGroup, messages[..index], message);
        grouped := grouped + [currentGroup];
        currentGroup := [message];
      } else {
        ExtendRun(grouped, currentGroup, messages[..index], message);
        currentGroup := currentGroup + [message];
      }
    }
    assert messages[..|messages|] == messages;
    if |currentGroup| > 0 {
      grouped := grouped + [currentGroup];
    }
  }

  lemma FlattenSnoc(groups: seq<seq<Message>>, g: seq<Message>)
    ensures Flatten(groups + [g]) == Flatten(groups) + g
  {
    assert (groups + [g])[..|groups|] == groups;
  }

  lemma PrefixStep(messages: seq<Message>, i: nat)
    requires i < |messages|
    ensures messages[..i + 1] == messages[..i] + [messages[i]]
    ensures i > 0 ==>
      SenderChanges(messages[..i + 1]) == SenderChanges(messages[..i]) + (if messages[i].sender != messages[i - 1].sender then 1 else 0)
  {
    assert messages[..i + 1][..i] == messages[..i];
  }

  /** A message whose sender differs from the last one closes the current
      run and opens a new one. */
  lemma StartRun(groups: seq<seq<Message>>, current: seq<Message>, done: seq<Message>, m: Message)
    requires current != [] && IsRunGrouping(groups + [current], done)
    requires done != [] && m.sender != done[|done| - 1].sender
    ensures IsRunGrouping(groups + [current] + [[m]], done + [m])
  {
    var gs := groups + [current];
    LastRun(gs, done);
    assert done[|done| - 1] == current[|current| - 1];
    FlattenSnoc(gs, [m]);
  }

  /** A message with the sender of the last one joins the current run. */
  lemma ExtendRun(groups: seq<seq<Message>>, current: seq<Message>, done: seq<Message>, m: Message)
    requires current != [] && IsRunGrouping(groups + [current], done)
    requires done != [] && m.sender == done[|done| - 1].sender
    ensures current + [m] != [] && IsRunGrouping(groups + [current + [m]], done + [m])
  {
    var gs := groups + [current];
    LastRun(gs, done);
    assert done[|done| - 1] == current[|current| - 1];
    FlattenSnoc(groups, current);
    FlattenSnoc(groups, current + [m]);
    var ngs: seq<seq<Message>> := groups + [current + [m]];
    forall j | 0 <= j < |ngs| ensures ngs[j] != [] && SameSender(ngs[j]) {
      if j < |groups| { assert ngs[j] == gs[j]; }
    }
    forall j | 0 < j < |ngs| ensures ngs[j - 1][0].sender != ngs[j][0].sender {
      assert ngs[j - 1] == gs[j - 1];
      assert ngs[j][0] == gs[j][0];
    }
  }

  /** `processedContent`: the text a message bubble renders. */
  function ProcessedContent(m: Message): string {
    if m.file.Some? then "File: " + m.file.value.filename + "\n\n" + m.content else m.content
  }

  /** The bubble always ends with the message's own text; with a file it
      starts with the file's name, without one it is exactly the text. */
  lemma ProcessedContentShape(m: Message)
    ensures var p := ProcessedContent(m);
      |p| >= |m.content| && p[|p| - |m.content|..] == m.content
    ensures m.file.None? ==> ProcessedContent(m) == m.content
    ensures m.file.Some? ==> ProcessedContent(m)[..6 + |m.file.value.filename|] == "File: " + m.file.value.filename
  {
    var p := ProcessedContent(m);
    if m.file.Some? {
      var head := "File: " + m.file.value.filename + "\n\n";
      assert p == head + m.content;
      assert p[|head|..] == m.content;
    }
  }

  /** The run grouping is unique: two groupings of the same messages into
      runs are equal. */
  lemma {:induction false} RunGroupingUnique(a: seq<seq<Message>>, b: seq<seq<Message>>, messages: seq<Message>)
    requires IsRunGrouping(a, messages) && IsRunGrouping(b, messages)
    ensures a == b
    decreases |messages|
  {
    if a == [] || b == [] {
      FlattenEmpty(a);
      FlattenEmpty(b);
    } else {
      var la := a[|a| - 1];
      var lb := b[|b| - 1];
      LastRun(a, messages);
      LastRun(b, messages);
      if |la| < |lb| {
        RunEndsAt(a, messages);
        assert false;
      } else if |lb| < |la| {
        RunEndsAt(b, messages);
        assert false;
      }
      assert la == lb;
      var rest := messages[..|messages| - |la|];
      RunGroupingFront(a, messages);
      RunGroupingFront(b, messages);
      RunGroupingUnique(a[..|a| - 1], b[..|b| - 1], rest);
      assert a == a[..|a| - 1] + [la];
      assert b == b[..|b| - 1] + [lb];
    }
  }

  lemma FlattenEmpty(groups: seq<seq<Message>>)
    requires forall j :: 0 <= j < |groups| ==> groups[j] != []
    ensures Flatten(groups) == [] <==> groups == []
  {
    if groups != [] {
      assert |Flatten(groups)| >= |groups[|groups| - 1]|;
    }
  }

  /** The last run is a suffix of the messages. */
  lemma LastRun(groups: seq<seq<Message>>, messages: seq<Message>)
    requires IsRunGrouping(groups, messages) && groups != []
    ensures var last := groups[|groups| - 1];
      |last| <= |messages| && messages[|messages| - |last|..] == last
      && Flatten(groups[..|groups| - 1]) == messages[..|messages| - |last|]
  {
  }

  lemma RunGroupingFront(groups: seq<seq<Message>>, messages: seq<Message>)
    requires IsRunGrouping(groups, messages) && groups != []
    ensures IsRunGrouping(groups[..|groups| - 1], messages[..|messages| - |groups[|groups| - 1]|])
  {
    LastRun(groups, messages);
  }

  /** Before the last run the sender differs: the message just before the
      last run, if any, has another sender. */
  lemma RunEndsAt(groups: seq<seq<Message>>, messages: seq<Message>)
    requires IsRunGrouping(groups, messages) && groups != []
    ensures var last := groups[|groups| - 1];
      |last| < |messages| ==> messages[|messages| - |last| - 1].sender != last[0].sender
    ensures forall j :: |messages| - |groups[|groups| - 1]| <= j < |messages| ==> messages[j].sender == groups[|groups| - 1][0].sender
  {
    var last := groups[|groups| - 1];
    LastRun(groups, messages);
    if |last| < |messages| {
      var front := groups[..|groups| - 1];
      FlattenEmpty(front);
      var prev := front[|front| - 1];
      LastRun(front, messages[..|messages| - |last|]);
      assert messages[|messages| - |last| - 1] == prev[|prev| - 1];
    }
  }
}

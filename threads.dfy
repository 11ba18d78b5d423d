/** Thread reconstruction (`organizeMessagesWithThreads`) and the per-channel view
    built on it (`processChannelData`). Replies are grouped by the timestamp of the
    message they answer and attached, in timestamp order, to the top-level message
    with that timestamp; the result lists only top-level messages. */
module Threads {
  import opened Wrappers
  import opened SlackTypes
  import opened Sequences
  import opened TimestampSort
  import opened Lookup
  import opened Timestamp

  /** A reply: its `thread_ts` is set, non-empty, and not its own timestamp. */
  predicate IsReply(m: Message) {
    m.threadTs.Some? && m.threadTs.value != "" && m.threadTs.value != m.ts
  }

  /** A top-level message: no thread, or the root of one. */
  predicate IsTopLevel(m: Message) {
    !IsReply(m)
  }

  /** Selects the replies to the message whose timestamp is `parentTs`. */
  function InThread(parentTs: string): Message -> bool {
    (m: Message) => IsReply(m) && m.threadTs == Some(parentTs)
  }

  function TopLevel(s: seq<Message>): seq<Message> {
    Filter(s, IsTopLevel)
  }

  /** The replies in `s` to the message whose timestamp is `parentTs`, in the order of `s`. */
  function Thread(s: seq<Message>, parentTs: string): seq<Message> {
    Filter(s, InThread(parentTs))
  }

  /** The `replies` entries for a thread: each reply's author (or "") and timestamp. */
  function Summaries(rs: seq<Message>): (r: seq<ReplySummary>)
    ensures |r| == |rs|
    ensures forall i :: 0 <= i < |rs| ==> r[i] == ReplySummary(rs[i].user.GetOr(""), rs[i].ts)
  {
    if rs == [] then [] else [ReplySummary(rs[0].user.GetOr(""), rs[0].ts)] + Summaries(rs[1..])
  }

  /** `m` carries the thread `group`: its replies, their summaries and their count. */
  predicate Attached(m: Message, group: seq<Message>)
    reads m
  {
    m.threadReplies == Some(group) && m.replies == Some(Summaries(group)) && m.replyCount == Some(|group|)
  }

  /** `m`'s three thread fields are as they were. */
  twostate predicate ThreadFieldsUnchanged(m: Message)
    reads m
  {
    m.threadReplies == old(m.threadReplies) && m.replies == old(m.replies) && m.replyCount == old(m.replyCount)
  }

  /** After reconstruction over `sorted`: every top-level message of `objs` that has
      replies carries them, and every other message of `objs` is as it was. */
  twostate predicate ThreadsAttached(objs: seq<Message>, sorted: seq<Message>)
    reads objs
  {
    forall m | m in objs ::
      if IsTopLevel(m) && Thread(sorted, m.ts) != [] then Attached(m, Thread(sorted, m.ts))
      else ThreadFieldsUnchanged(m)
  }

  /** The first pass: splits `sorted` into its top-level messages and, per parent
      timestamp, the replies naming it, both in the order of `sorted`. */
  method PartitionReplies(sorted: seq<Message>) returns (main: seq<Message>, threadMap: map<string, seq<Message>>)
    ensures main == TopLevel(sorted)
    ensures forall ts :: ts in threadMap <==> Thread(sorted, ts) != []
    ensures forall ts :: ts in threadMap ==> threadMap[ts] == Thread(sorted, ts)
  {
    threadMap := map[];
    main := [];
    var i := 0;
    while i < |sorted|
      invariant 0 <= i <= |sorted|
      invariant main == TopLevel(sorted[..i])
      invariant forall ts :: ts in threadMap <==> Thread(sorted[..i], ts) != []
      invariant forall ts :: ts in threadMap ==> threadMap[ts] == Thread(sorted[..i], ts)
    {
      var m := sorted[i];
      assert sorted[..i + 1] == sorted[..i] + [m];
      FilterSnoc(sorted[..i], m, IsTopLevel);
      forall ts ensures Thread(sorted[..i + 1], ts) == Thread(sorted[..i], ts) + if InThread(ts)(m) then [m] else [] {
        FilterSnoc(sorted[..i], m, InThread(ts));
      }
      if m.threadTs.Some? && m.threadTs.value != "" && m.threadTs.value != m.ts {
        var parent := m.threadTs.value;
        if parent !in threadMap {
          threadMap := threadMap[parent := []];
        }
        threadMap := threadMap[parent := threadMap[parent] + [m]];
      } else {
        main := main + [m];
      }
      i := i + 1;
    }
    assert sorted[..i] == sorted;
  }

  /** The second pass: gives each message of `main` whose timestamp keys a thread
      that thread's replies, summaries and count. */
  method AttachReplies(main: seq<Message>, threadMap: map<string, seq<Message>>)
    modifies set m | m in main
    ensures forall m | m in main ::
      if m.ts in threadMap then Attached(m, threadMap[m.ts]) else ThreadFieldsUnchanged(m)
  {
    var n := 0;
    while n < |main|
      invariant 0 <= n <= |main|
      invariant forall m | m in main ::
        if m in main[..n] && m.ts in threadMap then Attached(m, threadMap[m.ts])
        else ThreadFieldsUnchanged(m)
    {
      var m := main[n];
      if m.ts in threadMap {
        var replies := threadMap[m.ts];
        m.replies := Some(Summaries(replies));
        m.replyCount := Some(|replies|);
        m.threadReplies := Some(replies);
      }
      assert main[..n + 1] == main[..n] + [m];
      n := n + 1;
    }
    assert main[..n] == main;
  }

  /** `organizeMessagesWithThreads`: sorts the caller's array in place, then returns
      its top-level messages, having attached to each the replies that name its
      timestamp. */
  method OrganizeMessagesWithThreads(a: array<Message>) returns (main: seq<Message>)
    modifies a, set k | 0 <= k < a.Length :: a[k]
    ensures a[..] == SortBy(old(a[..]), Key)
    ensures main == TopLevel(a[..])
    ensures ThreadsAttached(old(a[..]), a[..])
  {
    SortMessagesByTimestamp(a);
    var sorted := a[..];
    var threadMap;
    main, threadMap := PartitionReplies(sorted);
    SortByPermutes(old(a[..]), Key);
    assert forall m :: m in sorted <==> m in old(a[..]) by {
      assert forall m :: m in sorted <==> m in multiset(sorted);
      assert forall m :: m in old(a[..]) <==> m in multiset(old(a[..]));
    }
    forall m | m in main ensures m in sorted && IsTopLevel(m) {
      FilterMember(sorted, IsTopLevel, m);
    }
    AttachReplies(main, threadMap);
    forall m | m in old(a[..])
      ensures if IsTopLevel(m) && Thread(sorted, m.ts) != [] then Attached(m, Thread(sorted, m.ts))
              else ThreadFieldsUnchanged(m)
    {
      FilterMember(sorted, IsTopLevel, m);
    }
  }

  /** Running the reconstruction a second time over the same array changes
      nothing: the array keeps its order, the same top-level messages come back,
      and every message's thread fields are as the first run left them. */
  method ReorganizeIdempotent(a: array<Message>) returns (first: seq<Message>, second: seq<Message>)
    modifies a, set k | 0 <= k < a.Length :: a[k]
    ensures second == first == TopLevel(a[..])
    ensures a[..] == SortBy(old(a[..]), Key)
    ensures ThreadsAttached(old(a[..]), a[..])
  {
    first := OrganizeMessagesWithThreads(a);
    label once:
    SortKeepsMessages(old(a[..]));
    assert forall k | 0 <= k < a.Length :: a[k] in old(a[..]) by {
      forall k | 0 <= k < a.Length ensures a[k] in old(a[..]) {
        assert a[k] == a[..][k];
      }
    }
    second := OrganizeMessagesWithThreads(a);
    SortIdempotent(old(a[..]), Key);
    forall m | m in old(a[..])
      ensures if IsTopLevel(m) && Thread(a[..], m.ts) != [] then Attached(m, Thread(a[..], m.ts))
              else ThreadFieldsUnchanged(m)
    {
      if !(IsTopLevel(m) && Thread(a[..], m.ts) != []) {
        assert ThreadFieldsUnchanged@once(m);
      }
    }
  }

  /** Sorting keeps exactly the messages it was given. */
  lemma SortKeepsMessages(s: seq<Message>)
    ensures forall m :: m in SortBy(s, Key) <==> m in s
  {
    SortByPermutes(s, Key);
    assert forall m :: m in SortBy(s, Key) <==> m in multiset(SortBy(s, Key));
    assert forall m :: m in s <==> m in multiset(s);
  }

  /** The per-channel view: the channel record, its organised messages, and the
      users, unchanged. */
  datatype ChannelData = ChannelData(channel: Channel, messages: seq<Message>, users: seq<User>)

  /** `processChannelData`: nothing when no channel has the name; otherwise the first
      channel with it and that channel's messages organised into threads (none when
      the export has no messages under the name). The export's own array for the
      channel is the one sorted and whose messages gain their replies. */
  method ProcessChannelData(channelName: string, channels: seq<Channel>, users: seq<User>,
                            messages: map<string, array<Message>>)
    returns (r: Option<ChannelData>)
    modifies if channelName in messages then {messages[channelName]} else {}
    modifies if channelName in messages then set k | 0 <= k < messages[channelName].Length :: messages[channelName][k] else {}
    ensures r.None? <==> forall j :: 0 <= j < |channels| ==> channels[j].name != channelName
    ensures r.Some? ==> Some(r.value.channel) == GetChannelByName(channels, channelName) && r.value.users == users
    ensures r.Some? && channelName !in messages ==> r.value.messages == []
    ensures r.Some? && channelName in messages ==>
      var arr := messages[channelName];
      arr[..] == SortBy(old(arr[..]), Key) && r.value.messages == TopLevel(arr[..]) &&
      ThreadsAttached(old(arr[..]), arr[..])
    ensures r.None? && channelName in messages ==>
      var arr := messages[channelName];
      arr[..] == old(arr[..]) && forall m | m in old(arr[..]) :: ThreadFieldsUnchanged(m)
  {
    var channel := GetChannelByName(channels, channelName);
    if channel.None? {
      return None;
    }
    var organized: seq<Message>;
    if channelName in messages {
      organized := OrganizeMessagesWithThreads(messages[channelName]);
    } else {
      var empty := new Message[0];
      organized := OrganizeMessagesWithThreads(empty);
      assert empty[..] == [];
    }
    r := Some(ChannelData(channel.value, organized, users));
  }

  /** The result lists each top-level message as often as the input does, and no
      reply at all. */
  lemma TopLevelPartition(s: seq<Message>, m: Message)
    ensures multiset(TopLevel(SortBy(s, Key)))[m] == if IsTopLevel(m) then multiset(s)[m] else 0
  {
    FilterMultiset(SortBy(s, Key), IsTopLevel, m);
    SortByPermutes(s, Key);
  }

  /** The result is exactly the top-level messages, stably sorted by timestamp. */
  lemma TopLevelInOrder(s: seq<Message>)
    ensures TopLevel(SortBy(s, Key)) == SortBy(TopLevel(s), Key)
    ensures SortedBy(TopLevel(SortBy(s, Key)), Key)
  {
    SortCommutesWithFilter(s, Key, IsTopLevel);
    SortBySorted(TopLevel(s), Key);
  }

  /** The replies attached under a parent timestamp are exactly the replies naming
      it, stably sorted by timestamp, each with that parent timestamp. */
  lemma ThreadInOrder(s: seq<Message>, parentTs: string)
    ensures Thread(SortBy(s, Key), parentTs) == SortBy(Thread(s, parentTs), Key)
    ensures SortedBy(Thread(SortBy(s, Key), parentTs), Key)
    ensures forall r | r in Thread(SortBy(s, Key), parentTs) :: IsReply(r) && r.threadTs == Some(parentTs)
  {
    SortCommutesWithFilter(s, Key, InThread(parentTs));
    SortBySorted(Thread(s, parentTs), Key);
    forall r | r in Thread(SortBy(s, Key), parentTs) ensures IsReply(r) && r.threadTs == Some(parentTs) {
      FilterMember(SortBy(s, Key), InThread(parentTs), r);
    }
  }

  /** A reply whose parent timestamp is no top-level message's timestamp appears
      neither among the top-level messages nor in any thread attached to one. */
  lemma OrphanReplyDropped(s: seq<Message>, r: Message)
    requires IsReply(r)
    requires forall m | m in s && IsTopLevel(m) :: Some(m.ts) != r.threadTs
    ensures r !in TopLevel(SortBy(s, Key))
    ensures forall m | m in s && IsTopLevel(m) :: r !in Thread(SortBy(s, Key), m.ts)
  {
    FilterMember(SortBy(s, Key), IsTopLevel, r);
    forall m | m in s && IsTopLevel(m) ensures r !in Thread(SortBy(s, Key), m.ts) {
      FilterMember(SortBy(s, Key), InThread(m.ts), r);
    }
  }

  /** A root "1" followed by a reply "2" to it: one top-level message carrying the
      one reply. */
  lemma RootWithOneReply(root: Message, reply: Message)
    requires root.ts == "1" && root.threadTs == None
    requires reply.ts == "2" && reply.threadTs == Some("1")
    ensures TopLevel(SortBy([root, reply], Key)) == [root]
    ensures Thread(SortBy([root, reply], Key), root.ts) == [reply]
  {
    AlreadyInOrder(root, reply);
    assert "1"[0] != "2"[0];
    assert IsReply(reply) && IsTopLevel(root);
    assert [root, reply][..1] == [root];
    assert Filter([root], IsTopLevel) == [root];
    assert TopLevel([root, reply]) == Filter([root], IsTopLevel);
    assert Filter([root], InThread("1")) == [];
    assert Thread([root, reply], "1") == Filter([root], InThread("1")) + [reply];
  }

  /** Messages at timestamps "1" and "2" are already in order. */
  lemma AlreadyInOrder(root: Message, reply: Message)
    requires root.ts == "1" && reply.ts == "2"
    ensures SortBy([root, reply], Key) == [root, reply]
  {
    assert DigitRun("1"[1..]) == 0;
    assert DigitRun("2"[1..]) == 0;
    assert Key(root) == 1.0 && Key(reply) == 2.0 by {
      assert DigitRun("1") == 1 && DigitRun("2") == 1;
      assert "1"[..1] == "1" && "2"[..1] == "2";
      assert DigitsValue("1") == 1 by { assert "1"[..0] == []; }
      assert DigitsValue("2") == 2 by { assert "2"[..0] == []; }
    }
    SortOfSorted([root, reply], Key);
    assert [root, reply][..1] == [root];
    assert [root][..0] == [];
  }
}

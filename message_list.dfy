/** The message list: messages grouped under a date header, and within a group the flags
    each bubble is drawn with. The date header key (`new Date(sentAt).toDateString()`) is
    the parameter `dateKey`. */
module MessageList {
  import opened ClientTypes
  import Seqs

  /** The messages whose date key is `k`. */
  function HasKey(dateKey: ClientMessage -> string, k: string): ClientMessage -> bool {
    (m: ClientMessage) => dateKey(m) == k
  }

  /** The group a date key should hold: its messages, in their original order. */
  function Group(messages: seq<ClientMessage>, dateKey: ClientMessage -> string, k: string): seq<ClientMessage> {
    Seqs.Filter(messages, HasKey(dateKey, k))
  }

  predicate Distinct(keys: seq<string>) {
    forall i, j :: 0 <= i < j < |keys| ==> keys[i] != keys[j]
  }

  /** The date keys in order of first appearance: the order in which the object's keys are
      created, and so the order `Object.entries` lists the groups in. */
  function KeyOrder(messages: seq<ClientMessage>, dateKey: ClientMessage -> string): (keys: seq<string>)
    ensures Distinct(keys)
    ensures forall k :: k in keys <==> exists i :: 0 <= i < |messages| && dateKey(messages[i]) == k
  {
    if messages == [] then []
    else
      var init := messages[..|messages| - 1];
      var last := messages[|messages| - 1];
      var keys := KeyOrder(init, dateKey);
      assert forall i :: 0 <= i < |init| ==> init[i] == messages[i];
      if dateKey(last) in keys then keys else keys + [dateKey(last)]
  }

  /** The total number of messages held by the groups of `keys`. */
  function Size(keys: seq<string>, groups: map<string, seq<ClientMessage>>): nat {
    if keys == [] then 0
    else (if keys[0] in groups then |groups[keys[0]]| else 0) + Size(keys[1..], groups)
  }

  lemma {:induction false} SizeIgnores(keys: seq<string>, groups: map<string, seq<ClientMessage>>, k: string, v: seq<ClientMessage>)
    requires k !in keys
    ensures Size(keys, groups[k := v]) == Size(keys, groups)
  {
    if keys != [] {
      SizeIgnores(keys[1..], groups, k, v);
    }
  }

  lemma {:induction false} SizeReplace(keys: seq<string>, groups: map<string, seq<ClientMessage>>, k: string, v: seq<ClientMessage>)
    requires Distinct(keys) && k in keys && k in groups
    ensures Size(keys, groups[k := v]) + |groups[k]| == Size(keys, groups) + |v|
  {
    if keys[0] == k {
      SizeIgnores(keys[1..], groups, k, v);
    } else {
      SizeReplace(keys[1..], groups, k, v);
    }
  }

  lemma {:induction false} SizeAppend(keys: seq<string>, groups: map<string, seq<ClientMessage>>, k: string)
    requires k in groups
    ensures Size(keys + [k], groups) == Size(keys, groups) + |groups[k]|
  {
    if keys == [] {
      assert [k][1..] == [];
    } else {
      assert (keys + [k])[1..] == keys[1..] + [k];
      SizeAppend(keys[1..], groups, k);
    }
  }

  /** `groups` and `keys` are the grouping of `s`: the keys in order of first appearance,
      one non-empty group per key, holding that key's messages in order, and as many
      messages in all as `s` has. */
  ghost predicate Grouped(s: seq<ClientMessage>, dateKey: ClientMessage -> string,
                          groups: map<string, seq<ClientMessage>>, keys: seq<string>) {
    && keys == KeyOrder(s, dateKey)
    && (forall k :: k in groups <==> k in keys)
    && (forall k :: k in groups ==> groups[k] == Group(s, dateKey, k) && groups[k] != [])
    && Size(keys, groups) == |s|
  }

  lemma GroupAppend(s: seq<ClientMessage>, m: ClientMessage, dateKey: ClientMessage -> string, j: string)
    ensures Group(s + [m], dateKey, j) == Group(s, dateKey, j) + (if dateKey(m) == j then [m] else [])
  {
    Seqs.FilterAppend(s, [m], HasKey(dateKey, j));
    Seqs.FilterSingleton(m, HasKey(dateKey, j));
  }

  /** Appending a message adds its key at the end of the key order when the key is new. */
  lemma KeyOrderAppend(s: seq<ClientMessage>, m: ClientMessage, dateKey: ClientMessage -> string)
    ensures var keys := KeyOrder(s, dateKey);
      KeyOrder(s + [m], dateKey) == if dateKey(m) in keys then keys else keys + [dateKey(m)]
  {
    assert (s + [m])[..|s + [m]| - 1] == s;
  }

  /** A message whose key already has a group is appended to that group. */
  lemma StepKnownKey(s: seq<ClientMessage>, m: ClientMessage, dateKey: ClientMessage -> string,
                     groups: map<string, seq<ClientMessage>>, keys: seq<string>)
    requires Grouped(s, dateKey, groups, keys)
    requires dateKey(m) in groups
    ensures Grouped(s + [m], dateKey, groups[dateKey(m) := groups[dateKey(m)] + [m]], keys)
  {
    KeyOrderAppend(s, m, dateKey);
    KnownGroupContents(s, m, dateKey, groups, keys);
    SizeReplace(keys, groups, dateKey(m), groups[dateKey(m)] + [m]);
  }

  lemma KnownGroupContents(s: seq<ClientMessage>, m: ClientMessage, dateKey: ClientMessage -> string,
                           groups: map<string, seq<ClientMessage>>, keys: seq<string>)
    requires Grouped(s, dateKey, groups, keys)
    requires dateKey(m) in groups
    ensures var g := groups[dateKey(m) := groups[dateKey(m)] + [m]];
      forall j :: j in g ==> g[j] == Group(s + [m], dateKey, j) && g[j] != []
  {
    var k := dateKey(m);
    forall j | j in groups[k := groups[k] + [m]]
      ensures groups[k := groups[k] + [m]][j] == Group(s + [m], dateKey, j)
    {
      GroupAppend(s, m, dateKey, j);
    }
  }

  /** A message with a new key opens a group of its own, listed after the others. */
  lemma StepNewKey(s: seq<ClientMessage>, m: ClientMessage, dateKey: ClientMessage -> string,
                   groups: map<string, seq<ClientMessage>>, keys: seq<string>)
    requires Grouped(s, dateKey, groups, keys)
    requires dateKey(m) !in groups
    ensures Grouped(s + [m], dateKey, groups[dateKey(m) := [m]], keys + [dateKey(m)])
  {
    KeyOrderAppend(s, m, dateKey);
    NewGroupContents(s, m, dateKey, groups, keys);
    NewGroupSize(keys, groups, dateKey(m), [m]);
  }

  lemma NewGroupContents(s: seq<ClientMessage>, m: ClientMessage, dateKey: ClientMessage -> string,
                         groups: map<string, seq<ClientMessage>>, keys: seq<string>)
    requires Grouped(s, dateKey, groups, keys)
    requires dateKey(m) !in groups
    ensures var g := groups[dateKey(m) := [m]];
      forall j :: j in g ==> g[j] == Group(s + [m], dateKey, j) && g[j] != []
  {
    var k := dateKey(m);
    Seqs.FilterNone(s, HasKey(dateKey, k));
    forall j | j in groups[k := [m]] ensures groups[k := [m]][j] == Group(s + [m], dateKey, j) {
      GroupAppend(s, m, dateKey, j);
    }
  }

  lemma NewGroupSize(keys: seq<string>, groups: map<string, seq<ClientMessage>>, k: string, v: seq<ClientMessage>)
    requires k !in keys
    ensures Size(keys + [k], groups[k := v]) == Size(keys, groups) + |v|
  {
    SizeIgnores(keys, groups, k, v);
    SizeAppend(keys, groups[k := v], k);
  }

  /** `groupMessagesByDate(messages)`: walks the messages once, appending each to the group
      of its date key and opening the group when the key is new. Every message lands in
      the group of its own key, groups keep the original order, and no message is lost or
      repeated. */
  method GroupMessagesByDate(messages: seq<ClientMessage>, dateKey: ClientMessage -> string)
    returns (groups: map<string, seq<ClientMessage>>, keys: seq<string>)
    ensures keys == KeyOrder(messages, dateKey)
    ensures forall k :: k in groups <==> k in keys
    ensures forall k :: k in groups ==> groups[k] == Group(messages, dateKey, k) && groups[k] != []
    ensures Size(keys, groups) == |messages|
  {
    groups := map[];
    keys := [];
    var i := 0;
    assert messages[..0] == [];
    while i < |messages|
      invariant 0 <= i <= |messages|
      invariant Grouped(messages[..i], dateKey, groups, keys)
    {
      var m := messages[i];
      var k := dateKey(m);
      assert messages[..i + 1] == messages[..i] + [m];
      if k !in groups {
        StepNewKey(messages[..i], m, dateKey, groups, keys);
        groups := groups[k := [m]];
        keys := keys + [k];
      } else {
        StepKnownKey(messages[..i], m, dateKey, groups, keys);
        groups := groups[k := groups[k] + [m]];
      }
      i := i + 1;
    }
    assert messages[..i] == messages;
  }

  /** Each message belongs to the group of its own key and to no other. */
  lemma EachMessageInOneGroup(messages: seq<ClientMessage>, dateKey: ClientMessage -> string, i: nat, k: string)
    requires i < |messages|
    ensures messages[i] in Group(messages, dateKey, k) <==> dateKey(messages[i]) == k
  {
  }

  /** `isOwn`: the current user sent the message. */
  predicate IsOwn(m: ClientMessage, me: ClientUser) {
    m.sender.id == me.id
  }

  /** `isLastInGroup` for the message at `index` of a date group: it is the group's last
      message, or the next one comes from someone else. */
  predicate IsLastInGroup(group: seq<ClientMessage>, index: nat)
    requires index < |group|
  {
    index == |group| - 1 || group[index + 1].sender.id != group[index].sender.id
  }

  /** The flags a bubble is drawn with: avatar and time both follow `isLastInGroup`. */
  datatype BubbleFlags = BubbleFlags(isOwn: bool, showAvatar: bool, showTime: bool)

  function FlagsAt(group: seq<ClientMessage>, index: nat, me: ClientUser): (f: BubbleFlags)
    requires index < |group|
    ensures f.showAvatar == f.showTime
    ensures f.isOwn <==> group[index].sender.id == me.id
  {
    var last := IsLastInGroup(group, index);
    BubbleFlags(IsOwn(group[index], me), last, last)
  }

  /** In a run of consecutive messages from one sender, only the last can show the avatar
      and time: every earlier one of the run hides them. */
  lemma {:induction false} OnlyRunEndShowsAvatar(group: seq<ClientMessage>, me: ClientUser, lo: nat, hi: nat)
    requires lo <= hi < |group|
    requires forall k :: lo <= k <= hi ==> group[k].sender.id == group[lo].sender.id
    ensures forall k :: lo <= k < hi ==> !FlagsAt(group, k, me).showAvatar && !FlagsAt(group, k, me).showTime
    ensures hi + 1 < |group| && group[hi + 1].sender.id != group[lo].sender.id ==> FlagsAt(group, hi, me).showAvatar
    ensures FlagsAt(group, |group| - 1, me).showAvatar
  {
    forall k | lo <= k < hi
      ensures !FlagsAt(group, k, me).showAvatar && !FlagsAt(group, k, me).showTime
    {
      assert group[k + 1].sender.id == group[lo].sender.id;
      assert group[k].sender.id == group[lo].sender.id;
    }
  }
}

/**
 * Notification routing: `_send_telegram`, `notify_both`, `notify_self` and
 * `notify_friend` (check_pass.py:41-76). There are two Telegram recipients,
 * the owner and a friend, each with a bot token, a chat id and a message
 * prefix; a recipient is used only when both its token and its chat id are
 * set. A send counts as delivered when the HTTP call does not raise, so a
 * response with an error status still counts; the network is abstracted to
 * that outcome per recipient and text.
 */
module Notify {

  datatype Who = Owner | Friend

  /** Token, chat id and prefix; an unset variable is the empty string (both are falsy). */
  datatype Recipient = Recipient(token: string, chatId: string, prefix: string)

  datatype Channels = Channels(owner: Recipient, friend: Recipient)

  /** What the notifier does: a Telegram send and whether it was delivered, or a line printed instead. */
  datatype Effect = Send(to: Who, text: string, delivered: bool) | Print(text: string)

  function RecipientOf(ch: Channels, who: Who): Recipient {
    match who
    case Owner => ch.owner
    case Friend => ch.friend
  }

  predicate Configured(r: Recipient) {
    r.token != "" && r.chatId != ""
  }

  /** `f"{prefix}{msg}" if prefix else msg`: both branches give the prefix followed by the message. */
  function Prefixed(r: Recipient, msg: string): (m: string)
    ensures m == r.prefix + msg
  {
    if r.prefix != "" then r.prefix + msg else msg
  }

  /** The texts sent to `who`, in order. */
  function SentTo(effects: seq<Effect>, who: Who): seq<string> {
    if effects == [] then []
    else SentOne(effects[0], who) + SentTo(effects[1..], who)
  }

  function SentOne(e: Effect, who: Who): seq<string> {
    if e.Send? && e.to == who then [e.text] else []
  }

  /** The lines printed, in order. */
  function Printed(effects: seq<Effect>): seq<string> {
    if effects == [] then []
    else (if effects[0].Print? then [effects[0].text] else []) + Printed(effects[1..])
  }

  /** Some send in `effects` was delivered. */
  predicate AnyDelivered(effects: seq<Effect>) {
    effects != [] && ((effects[0].Send? && effects[0].delivered) || AnyDelivered(effects[1..]))
  }

  /** Every effect carries `msg`: a send as the recipient's prefix followed by `msg`, a print as `msg` itself. */
  predicate Carries(ch: Channels, effects: seq<Effect>, msg: string) {
    forall e :: e in effects ==>
      (e.Send? ==> e.text == RecipientOf(ch, e.to).prefix + msg) && (e.Print? ==> e.text == msg)
  }

  /** Every send in `effects` goes to `who`. */
  predicate Addressed(effects: seq<Effect>, who: Who) {
    forall e :: e in effects && e.Send? ==> e.to == who
  }

  /** `_send_telegram(token, chat_id, m)` to a configured recipient: delivered iff the POST does not raise. */
  function Attempt(ch: Channels, who: Who, posts: (Who, string) -> bool, msg: string): (e: Effect)
    ensures e.Send? && e.to == who && e.text == RecipientOf(ch, who).prefix + msg
    ensures e.delivered == posts(who, e.text)
  {
    var m := Prefixed(RecipientOf(ch, who), msg);
    Send(who, m, posts(who, m))
  }

  /** `who` is configured and the POST of its prefixed message does not raise. */
  predicate Delivers(ch: Channels, who: Who, posts: (Who, string) -> bool, msg: string) {
    Configured(RecipientOf(ch, who)) && posts(who, RecipientOf(ch, who).prefix + msg)
  }

  /** The send to `who`, if that recipient is configured. */
  function SendIfConfigured(ch: Channels, who: Who, posts: (Who, string) -> bool, msg: string): seq<Effect> {
    if Configured(RecipientOf(ch, who)) then [Attempt(ch, who, posts, msg)] else []
  }

  /** What `notify_self(msg)` does. */
  function OwnerNotice(ch: Channels, posts: (Who, string) -> bool, msg: string): (e: seq<Effect>)
    ensures Carries(ch, e, msg) && Addressed(e, Owner)
  {
    var sends := SendIfConfigured(ch, Owner, posts, msg);
    sends + (if AnyDelivered(sends) then [] else [Print(msg)])
  }

  /** What `notify_friend(msg)` does. */
  function FriendNotice(ch: Channels, posts: (Who, string) -> bool, msg: string): (e: seq<Effect>)
    ensures Carries(ch, e, msg) && Addressed(e, Friend)
  {
    var sends := SendIfConfigured(ch, Friend, posts, msg);
    sends + (if sends != [] && !AnyDelivered(sends) then [Print(msg)] else [])
  }

  /** What `notify_both(msg)` does. */
  function BothNotice(ch: Channels, posts: (Who, string) -> bool, msg: string): (e: seq<Effect>)
    ensures Carries(ch, e, msg)
  {
    var sends := SendIfConfigured(ch, Owner, posts, msg) + SendIfConfigured(ch, Friend, posts, msg);
    sends + (if AnyDelivered(sends) then [] else [Print(msg)])
  }

  /** `notify_self(msg)` */
  method NotifySelf(ch: Channels, posts: (Who, string) -> bool, msg: string) returns (effects: seq<Effect>)
    ensures effects == OwnerNotice(ch, posts, msg)
  {
    if Configured(ch.owner) {
      var m := Prefixed(ch.owner, msg);
      var ok := posts(Owner, m);
      effects := [Send(Owner, m, ok)];
      assert effects == SendIfConfigured(ch, Owner, posts, msg) && effects[1..] == [];
      assert AnyDelivered(effects) == ok;
      if !ok {
        effects := effects + [Print(msg)];
      } else {
        assert effects + [] == effects;
      }
    } else {
      effects := [Print(msg)];
      assert !AnyDelivered([]);
      assert SendIfConfigured(ch, Owner, posts, msg) == [];
    }
  }

  /** `notify_friend(msg)` */
  method NotifyFriend(ch: Channels, posts: (Who, string) -> bool, msg: string) returns (effects: seq<Effect>)
    ensures effects == FriendNotice(ch, posts, msg)
  {
    effects := [];
    if Configured(ch.friend) {
      var m := Prefixed(ch.friend, msg);
      var ok := posts(Friend, m);
      effects := [Send(Friend, m, ok)];
      assert effects == SendIfConfigured(ch, Friend, posts, msg) && effects[1..] == [];
      assert AnyDelivered(effects) == ok;
      if !ok {
        effects := effects + [Print(msg)];
      } else {
        assert effects + [] == effects;
      }
    }
  }

  /**
   * `notify_both(msg)`: each configured recipient gets a send, and the
   * send happens before `or any_sent` is looked at, so a delivered first
   * send does not skip the second.
   */
  method NotifyBoth(ch: Channels, posts: (Who, string) -> bool, msg: string) returns (effects: seq<Effect>)
    ensures effects == BothNotice(ch, posts, msg)
  {
    var anySent := false;
    effects := [];
    if Configured(ch.owner) {
      var m := Prefixed(ch.owner, msg);
      var ok := posts(Owner, m);
      effects := effects + [Send(Owner, m, ok)];
      anySent := ok || anySent;
    }
    if Configured(ch.friend) {
      var m2 := Prefixed(ch.friend, msg);
      var ok := posts(Friend, m2);
      effects := effects + [Send(Friend, m2, ok)];
      anySent := ok || anySent;
    }
    assert anySent <==> AnyDelivered(effects) by {
      AnyDeliveredAppend(SendIfConfigured(ch, Owner, posts, msg), SendIfConfigured(ch, Friend, posts, msg));
    }
    if !anySent {
      effects := effects + [Print(msg)];
    }
  }

  // ---------------------------------------------------------------------------
  // Properties

  lemma {:induction false} SentToAppend(a: seq<Effect>, b: seq<Effect>, who: Who)
    ensures SentTo(a + b, who) == SentTo(a, who) + SentTo(b, who)
  {
    if a != [] {
      assert (a + b)[0] == a[0] && (a + b)[1..] == a[1..] + b;
      SentToAppend(a[1..], b, who);
      SentToHead(a + b, who);
      SentToHead(a, who);
    } else {
      assert a + b == b;
    }
  }

  lemma SentToHead(effects: seq<Effect>, who: Who)
    requires effects != []
    ensures SentTo(effects, who) == SentOne(effects[0], who) + SentTo(effects[1..], who)
  {
  }

  lemma {:induction false} PrintedAppend(a: seq<Effect>, b: seq<Effect>)
    ensures Printed(a + b) == Printed(a) + Printed(b)
  {
    if a != [] {
      assert (a + b)[1..] == a[1..] + b;
      PrintedAppend(a[1..], b);
    } else {
      assert a + b == b;
    }
  }

  lemma {:induction false} AnyDeliveredAppend(a: seq<Effect>, b: seq<Effect>)
    ensures AnyDelivered(a + b) <==> AnyDelivered(a) || AnyDelivered(b)
  {
    if a != [] {
      assert (a + b)[1..] == a[1..] + b;
      AnyDeliveredAppend(a[1..], b);
    } else {
      assert a + b == b;
    }
  }

  lemma SendIfConfiguredSends(ch: Channels, who: Who, other: Who, posts: (Who, string) -> bool, msg: string)
    requires other != who
    ensures var s := SendIfConfigured(ch, who, posts, msg);
      && SentTo(s, who) == (if Configured(RecipientOf(ch, who)) then [RecipientOf(ch, who).prefix + msg] else [])
      && SentTo(s, other) == [] && Printed(s) == []
      && (AnyDelivered(s) <==> Delivers(ch, who, posts, msg))
  {
  }

  /**
   * `notify_self`: the owner gets the prefixed message when configured, the
   * friend gets nothing, and the bare message is printed exactly when no
   * send was delivered, which includes the unconfigured case.
   */
  lemma OwnerNoticeRouting(ch: Channels, posts: (Who, string) -> bool, msg: string)
    ensures var e := OwnerNotice(ch, posts, msg);
      && SentTo(e, Owner) == (if Configured(ch.owner) then [ch.owner.prefix + msg] else [])
      && SentTo(e, Friend) == []
      && Printed(e) == (if AnyDelivered(e) then [] else [msg])
      && (AnyDelivered(e) <==> Delivers(ch, Owner, posts, msg))
  {
    var s := SendIfConfigured(ch, Owner, posts, msg);
    var p: seq<Effect> := if AnyDelivered(s) then [] else [Print(msg)];
    SendIfConfiguredSends(ch, Owner, Friend, posts, msg);
    SentToAppend(s, p, Owner);
    SentToAppend(s, p, Friend);
    PrintedAppend(s, p);
    AnyDeliveredAppend(s, p);
  }

  /**
   * `notify_friend`: nothing at all happens when the friend is not
   * configured; otherwise the friend gets the prefixed message and the bare
   * message is printed when that send was not delivered.
   */
  lemma FriendNoticeRouting(ch: Channels, posts: (Who, string) -> bool, msg: string)
    ensures !Configured(ch.friend) ==> FriendNotice(ch, posts, msg) == []
    ensures var e := FriendNotice(ch, posts, msg);
      && SentTo(e, Friend) == (if Configured(ch.friend) then [ch.friend.prefix + msg] else [])
      && SentTo(e, Owner) == []
      && Printed(e) == (if Configured(ch.friend) && !AnyDelivered(e) then [msg] else [])
      && (AnyDelivered(e) <==> Delivers(ch, Friend, posts, msg))
  {
    var s := SendIfConfigured(ch, Friend, posts, msg);
    var p: seq<Effect> := if s != [] && !AnyDelivered(s) then [Print(msg)] else [];
    SendIfConfiguredSends(ch, Friend, Owner, posts, msg);
    SentToAppend(s, p, Owner);
    SentToAppend(s, p, Friend);
    PrintedAppend(s, p);
    AnyDeliveredAppend(s, p);
  }

  /**
   * `notify_both`: every configured recipient gets its prefixed message,
   * whatever happened to the other send, and the bare message is printed
   * exactly when no send was delivered.
   */
  lemma BothNoticeRouting(ch: Channels, posts: (Who, string) -> bool, msg: string)
    ensures var e := BothNotice(ch, posts, msg);
      && SentTo(e, Owner) == (if Configured(ch.owner) then [ch.owner.prefix + msg] else [])
      && SentTo(e, Friend) == (if Configured(ch.friend) then [ch.friend.prefix + msg] else [])
      && Printed(e) == (if AnyDelivered(e) then [] else [msg])
      && (AnyDelivered(e) <==> Delivers(ch, Owner, posts, msg) || Delivers(ch, Friend, posts, msg))
  {
    var s := SendIfConfigured(ch, Owner, posts, msg) + SendIfConfigured(ch, Friend, posts, msg);
    var p: seq<Effect> := if AnyDelivered(s) then [] else [Print(msg)];
    BothSends(ch, posts, msg);
    SentToAppend(s, p, Owner);
    SentToAppend(s, p, Friend);
    PrintedAppend(s, p);
    AnyDeliveredAppend(s, p);
  }

  /** `notify_both(msg)` followed by a print of `line`. */
  lemma BothNoticeThenPrint(ch: Channels, posts: (Who, string) -> bool, msg: string, line: string)
    ensures var n := BothNotice(ch, posts, msg) + [Print(line)];
      && SentTo(n, Owner) == (if Configured(ch.owner) then [ch.owner.prefix + msg] else [])
      && SentTo(n, Friend) == (if Configured(ch.friend) then [ch.friend.prefix + msg] else [])
      && Printed(n) == (if Delivers(ch, Owner, posts, msg) || Delivers(ch, Friend, posts, msg) then [] else [msg]) + [line]
  {
    var b := BothNotice(ch, posts, msg);
    var i: seq<Effect> := [Print(line)];
    BothNoticeRouting(ch, posts, msg);
    SentToAppend(b, i, Owner);
    SentToAppend(b, i, Friend);
    PrintedAppend(b, i);
  }

  /** The sends of `notify_both`, before the fallback print. */
  lemma BothSends(ch: Channels, posts: (Who, string) -> bool, msg: string)
    ensures var s := SendIfConfigured(ch, Owner, posts, msg) + SendIfConfigured(ch, Friend, posts, msg);
      && SentTo(s, Owner) == (if Configured(ch.owner) then [ch.owner.prefix + msg] else [])
      && SentTo(s, Friend) == (if Configured(ch.friend) then [ch.friend.prefix + msg] else [])
      && Printed(s) == []
      && (AnyDelivered(s) <==> Delivers(ch, Owner, posts, msg) || Delivers(ch, Friend, posts, msg))
  {
    var so := SendIfConfigured(ch, Owner, posts, msg);
    var sf := SendIfConfigured(ch, Friend, posts, msg);
    SendIfConfiguredSends(ch, Owner, Friend, posts, msg);
    SendIfConfiguredSends(ch, Friend, Owner, posts, msg);
    SentToAppend(so, sf, Owner);
    SentToAppend(so, sf, Friend);
    PrintedAppend(so, sf);
    AnyDeliveredAppend(so, sf);
  }

  /**
   * `notify_self(m1)` followed by `notify_friend(m2)`: each recipient gets
   * its own message, the owner's fallback print comes before the friend's,
   * and no send to the friend precedes a send to the owner.
   */
  lemma OwnerThenFriendNotices(ch: Channels, posts: (Who, string) -> bool, m1: string, m2: string)
    ensures var n := OwnerNotice(ch, posts, m1) + FriendNotice(ch, posts, m2);
      && SentTo(n, Owner) == (if Configured(ch.owner) then [ch.owner.prefix + m1] else [])
      && SentTo(n, Friend) == (if Configured(ch.friend) then [ch.friend.prefix + m2] else [])
      && Printed(n) == (if Delivers(ch, Owner, posts, m1) then [] else [m1])
        + (if Configured(ch.friend) && !Delivers(ch, Friend, posts, m2) then [m2] else [])
      && forall i, j :: 0 <= i < j < |n| && n[i].Send? && n[j].Send? ==> !(n[i].to == Friend && n[j].to == Owner)
  {
    var o, f := OwnerNotice(ch, posts, m1), FriendNotice(ch, posts, m2);
    OwnerNoticeRouting(ch, posts, m1);
    FriendNoticeRouting(ch, posts, m2);
    SentToAppend(o, f, Owner);
    SentToAppend(o, f, Friend);
    PrintedAppend(o, f);
    OwnerThenFriend(o, f);
  }

  /** Effects that only reach the owner, followed by effects that only reach the friend: no send to the friend precedes a send to the owner. */
  lemma OwnerThenFriend(o: seq<Effect>, f: seq<Effect>)
    requires Addressed(o, Owner) && Addressed(f, Friend)
    ensures var n := o + f;
      forall i, j :: 0 <= i < j < |n| && n[i].Send? && n[j].Send? ==> !(n[i].to == Friend && n[j].to == Owner)
  {
    var n := o + f;
    forall i, j | 0 <= i < j < |n| && n[i].Send? && n[j].Send?
      ensures !(n[i].to == Friend && n[j].to == Owner)
    {
      if j >= |o| {
        assert n[j] == f[j - |o|] && n[j] in f;
      } else {
        assert n[i] == o[i] && n[i] in o;
      }
    }
  }

  /** With neither recipient configured, `notify_both` only prints. */
  lemma BothNoticeUnconfigured(ch: Channels, posts: (Who, string) -> bool, msg: string)
    requires !Configured(ch.owner) && !Configured(ch.friend)
    ensures BothNotice(ch, posts, msg) == [Print(msg)]
  {
  }
}

/**
 * Sequences of commands on one store, stated as client methods: what a chat
 * can rely on when the commands are used one after another.
 */
module Sessions {
  import opened Strings
  import opened OrderedTable
  import opened Listing
  import opened Commands

  /** Adding one trigger twice leaves one entry holding the later response. */
  method AddTwice(store: CommandStore, admins: seq<string>, user: string,
                  trigger: string, first: string, second: string)
    requires store.Valid() && Permitted(admins, user)
    requires Strip(trigger) != [] && Strip(first) != [] && Strip(second) != []
    modifies store
    ensures store.Valid()
    ensures store.commands == Put(old(store.commands), Strip(trigger), Strip(second))
    ensures |store.saved| == |old(store.saved)| + 2
  {
    var out1, reply1 := store.Add(admins, user, trigger, first);
    var out2, reply2 := store.Add(admins, user, trigger, second);
    PutTwice(old(store.commands), Strip(trigger), Strip(first), Strip(second));
  }

  /** A second delete of the same trigger finds nothing, changes nothing and saves nothing. */
  method DeleteTwice(store: CommandStore, admins: seq<string>, user: string, trigger: string)
    returns (second: Outcome)
    requires store.Valid() && Permitted(admins, user)
    modifies store
    ensures store.Valid()
    ensures store.commands == Remove(old(store.commands), Strip(trigger))
    ensures second == Outcome(false, "命令未找到", true)
    ensures |store.saved| <= |old(store.saved)| + 1
  {
    var out1, reply1 := store.Delete(admins, user, trigger);
    var reply2;
    second, reply2 := store.Delete(admins, user, trigger);
  }

  /** A text response just added is what the trigger then answers. */
  method AddThenTrigger(store: CommandStore, admins: seq<string>, user: string,
                        trigger: string, response: string, files: ImageFiles)
    returns (out: Outcome, reply: Reply)
    requires store.Valid() && Permitted(admins, user)
    requires Strip(trigger) != [] && Strip(response) != []
    requires !ImageRefs.IsImage(Strip(response))
    modifies store
    ensures out == Outcome(true, "动态文本命令执行成功", true)
    ensures reply == Text(Strip(response))
  {
    var added, confirmation := store.Add(admins, user, trigger, response);
    StripIdempotent(trigger);
    out, reply := store.HandleDynamic(Strip(trigger), files);
  }

  /** The listing of a table that holds one trigger. */
  lemma {:induction false} SingleTriggerListing(prefix: string, trigger: string)
    requires trigger != [] && !IsSpace(trigger[|trigger| - 1])
    ensures Strip(Header + ListLines(prefix, [trigger])) == Header + Bullet + prefix + trigger
  {
    var body := Header + Bullet + prefix + trigger;
    assert Header + ListLines(prefix, [trigger]) == body + "\n" by {
      assert ListLines(prefix, [trigger]) == ListLines(prefix, []) + Line(prefix, trigger);
    }
    StrippedListing(prefix, [trigger]);
    assert (body + "\n")[..|body|] == body;
  }

  /** A fresh start with one admin: the admin adds a trigger, another user is
      refused, and anyone then lists the table. */
  method AdminSession(prefix: string, admin: string, intruder: string,
                      trigger: string, response: string, otherTrigger: string, otherResponse: string)
    returns (added: Outcome, denied: Outcome, listing: Reply)
    requires admin != intruder
    requires trigger != [] && !IsSpace(trigger[0]) && !IsSpace(trigger[|trigger| - 1])
    requires response != [] && !IsSpace(response[0]) && !IsSpace(response[|response| - 1])
    ensures added == Outcome(true, "添加成功", true)
    ensures denied == Outcome(false, "无权限", true)
    ensures listing == Text(Header + Bullet + prefix + trigger)
  {
    var store := new CommandStore.Load(Missing);
    var admins := [admin];
    assert Permitted(admins, admin) && !Permitted(admins, intruder);
    assert Strip(trigger) == trigger && Strip(response) == response by {
      StripVisibleEnds(trigger);
      StripVisibleEnds(response);
    }

    ghost var one := Put(Empty, trigger, response);
    assert one.keys == [trigger] && one.entries != map[];

    var confirmation;
    added, confirmation := store.Add(admins, admin, trigger, response);
    assert store.commands == one;

    var refusal;
    denied, refusal := store.Add(admins, intruder, otherTrigger, otherResponse);
    assert store.commands == one;

    var listed;
    SingleTriggerListing(prefix, trigger);
    listed, listing := store.List(prefix);
  }
}

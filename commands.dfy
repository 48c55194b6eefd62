/**
 * The four chat commands of the custom-commands plugin over the shared
 * trigger -> response table, and the loading of that table at start-up.
 * Each command answers a triple (success, reason, consumed) to the host and
 * at most one reply message to the chat.
 */
module Commands {
  import opened Strings
  import opened OrderedTable
  import opened ImageRefs
  import opened Listing

  /** The `(success, reason, consumed)` triple a command returns to the host. */
  datatype Outcome = Outcome(success: bool, reason: string, consumed: bool)

  /** What the command sends to the chat. */
  datatype Reply = Silent | Text(message: string) | Image(path: string)

  /** What the store file held when the plugin started. */
  datatype StoreFile =
    | Missing                                // no file yet
    | Unreadable                             // present, but could not be opened or parsed
    | Parsed(pairs: seq<(string, string)>)   // a JSON object, its pairs in file order

  /** The image files as seen when a trigger fires: which paths exist, and
      for which the bytes could be read and the image sent. */
  datatype ImageFiles = ImageFiles(existing: set<string>, deliverable: set<string>)

  const DeniedText: string := "❌ 你没有权限执行此操作。"
  const FormatText: string := "❌ 命令格式错误，请使用：.问：触发词答：回复内容"
  const EmptyListText: string := "\U{1F937}\U{200D}\U{2640}\U{FE0F} 还没有添加任何自定义命令。"
  const ImageErrorText: string := "❌ 发送图片时发生内部错误。"

  function AddedText(trigger: string, response: string): string {
    "✅ 成功添加自定义命令！\n触发词：" + trigger + "\n回复内容：" + response
  }

  function DeletedText(trigger: string): string {
    "✅ 成功删除了自定义命令：'" + trigger + "'"
  }

  function NotFoundText(trigger: string): string {
    "❌ 未找到要删除的命令：'" + trigger + "'"
  }

  function MissingImageText(value: string): string {
    "❌ 配置错误：在 data/images/ 中找不到图片文件 '" + value + "'"
  }

  /** The admin gate of Add and Delete: an empty admin list lets everyone through. */
  predicate Permitted(admins: seq<string>, user: string) {
    !(admins != [] && user !in admins)
  }

  class CommandStore {
    /** The module-level `custom_commands` dict. */
    var commands: Table
    /** Every snapshot handed to the JSON writer so far, oldest first. */
    ghost var saved: seq<Table>

    ghost predicate Valid()
      reads this
    {
      commands.Valid()
    }

    /** Start-up: load the file; create it when missing; fall back to an
        empty table when it cannot be read. */
    constructor Load(file: StoreFile)
      ensures Valid()
      ensures file.Missing? ==> commands == Empty && saved == [Empty]
      ensures file.Unreadable? ==> commands == Empty && saved == []
      ensures file.Parsed? ==> commands == FromPairs(file.pairs) && saved == []
    {
      commands := Empty;
      saved := [];
      new;
      match file
      case Missing =>
        Save();
      case Unreadable =>
        commands := Empty;
      case Parsed(pairs) =>
        commands := FromPairs(pairs);
    }

    /** Hands the current table to the JSON writer. */
    method Save()
      modifies this`saved
      ensures saved == old(saved) + [commands]
    {
      saved := saved + [commands];
    }

    /** `.问：<trigger>答：<response>`: an admin's upsert of one trigger. */
    method Add(admins: seq<string>, user: string, rawTrigger: string, rawResponse: string)
      returns (out: Outcome, reply: Reply)
      requires Valid()
      modifies this
      ensures Valid()
      ensures !Permitted(admins, user) ==>
        && out == Outcome(false, "无权限", true) && reply == Text(DeniedText)
        && commands == old(commands) && saved == old(saved)
      ensures Permitted(admins, user) && (Strip(rawTrigger) == [] || Strip(rawResponse) == []) ==>
        && out == Outcome(false, "格式错误", true) && reply == Text(FormatText)
        && commands == old(commands) && saved == old(saved)
      ensures Permitted(admins, user) && Strip(rawTrigger) != [] && Strip(rawResponse) != [] ==>
        && out == Outcome(true, "添加成功", true)
        && reply == Text(AddedText(Strip(rawTrigger), Strip(rawResponse)))
        && commands == Put(old(commands), Strip(rawTrigger), Strip(rawResponse))
        && saved == old(saved) + [commands]
    {
      if !Permitted(admins, user) {
        return Outcome(false, "无权限", true), Text(DeniedText);
      }
      var trigger := Strip(rawTrigger);
      var response := Strip(rawResponse);
      if trigger == [] || response == [] {
        return Outcome(false, "格式错误", true), Text(FormatText);
      }
      commands := Put(commands, trigger, response);
      Save();
      return Outcome(true, "添加成功", true), Text(AddedText(trigger, response));
    }

    /** `.删：<trigger>`: an admin's removal of one trigger, if present. */
    method Delete(admins: seq<string>, user: string, rawTrigger: string)
      returns (out: Outcome, reply: Reply)
      requires Valid()
      modifies this
      ensures Valid()
      ensures !Permitted(admins, user) ==>
        && out == Outcome(false, "无权限", true) && reply == Text(DeniedText)
        && commands == old(commands) && saved == old(saved)
      ensures Permitted(admins, user) && Strip(rawTrigger) in old(commands.entries) ==>
        && out == Outcome(true, "删除成功", true) && reply == Text(DeletedText(Strip(rawTrigger)))
        && commands == Remove(old(commands), Strip(rawTrigger))
        && saved == old(saved) + [commands]
      ensures Permitted(admins, user) && Strip(rawTrigger) !in old(commands.entries) ==>
        && out == Outcome(false, "命令未找到", true) && reply == Text(NotFoundText(Strip(rawTrigger)))
        && commands == old(commands) && saved == old(saved)
    {
      if !Permitted(admins, user) {
        return Outcome(false, "无权限", true), Text(DeniedText);
      }
      var trigger := Strip(rawTrigger);
      if trigger in commands.entries {
        commands := Remove(commands, trigger);
        Save();
        return Outcome(true, "删除成功", true), Text(DeletedText(trigger));
      } else {
        return Outcome(false, "命令未找到", true), Text(NotFoundText(trigger));
      }
    }

    /** `.列表`: anyone may list the triggers, in table order. */
    method List(prefix: string) returns (out: Outcome, reply: Reply)
      requires Valid()
      ensures commands.entries == map[] ==>
        out == Outcome(true, "列表为空", true) && reply == Text(EmptyListText)
      ensures commands.entries != map[] ==>
        && out == Outcome(true, "列表已发送", true)
        && reply == Text(Strip(Header + ListLines(prefix, commands.keys)))
    {
      if commands.entries == map[] {
        return Outcome(true, "列表为空", true), Text(EmptyListText);
      }
      var triggers := commands.keys;
      var message := Header;
      var i := 0;
      while i < |triggers|
        invariant 0 <= i <= |triggers|
        invariant message == Header + ListLines(prefix, triggers[..i])
      {
        ListingStep(prefix, triggers, i);
        message := message + Line(prefix, triggers[i]);
        i := i + 1;
      }
      assert triggers[..i] == triggers;
      return Outcome(true, "列表已发送", true), Text(Strip(message));
    }

    /** `.<anything>`: answers a stored trigger with its text or its image;
        a message that names no trigger is left to other handlers. */
    method HandleDynamic(rawTrigger: string, files: ImageFiles) returns (out: Outcome, reply: Reply)
      ensures Strip(rawTrigger) !in commands.entries ==>
        out == Outcome(false, "未找到自定义命令", false) && reply == Silent
      ensures Strip(rawTrigger) in commands.entries ==>
        var value := commands.entries[Strip(rawTrigger)];
        var path := ImagePath(value);
        && (!IsImage(value) ==>
              out == Outcome(true, "动态文本命令执行成功", true) && reply == Text(value))
        && (IsImage(value) && path !in files.existing ==>
              out == Outcome(false, "图片文件不存在", true) && reply == Text(MissingImageText(value)))
        && (IsImage(value) && path in files.existing && path !in files.deliverable ==>
              out == Outcome(false, "发送图片失败", true) && reply == Text(ImageErrorText))
        && (IsImage(value) && path in files.existing && path in files.deliverable ==>
              out == Outcome(true, "动态图片命令执行成功", true) && reply == Image(path))
      ensures out.consumed <==> Strip(rawTrigger) in commands.entries
    {
      var trigger := Strip(rawTrigger);
      if trigger in commands.entries {
        var value := commands.entries[trigger];
        if IsImage(value) {
          var path := ImagePath(value);
          if path !in files.existing {
            return Outcome(false, "图片文件不存在", true), Text(MissingImageText(value));
          }
          if path in files.deliverable {
            return Outcome(true, "动态图片命令执行成功", true), Image(path);
          } else {
            return Outcome(false, "发送图片失败", true), Text(ImageErrorText);
          }
        } else {
          return Outcome(true, "动态文本命令执行成功", true), Text(value);
        }
      }
      return Outcome(false, "未找到自定义命令", false), Silent;
    }
  }
}

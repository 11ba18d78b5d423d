/** Export ingestion (`parseSlackExport`): each uploaded file is read, parsed as
    JSON and, by its name, merged into the channel list, the user list or the
    message list of the channel named by its parent directory. The JSON value type
    is left abstract (`T`): the code spreads whatever array it parses without
    looking inside it. */
module Ingest {
  import opened Wrappers

  /** What reading and parsing one file produced. `NotIterable` is a JSON value that
      is not an array (spreading it throws, after any side effect that precedes the
      spread); `Malformed` is text that is not JSON; `Unreadable` is a failed read,
      which happens outside the per-file error handling. */
  datatype Parsed<T> = JsonArray(items: seq<T>) | NotIterable | Malformed | Unreadable

  /** An uploaded file: its base name, its path inside the uploaded directory ("" when
      the browser gives none) and the outcome of reading and parsing it. */
  datatype ExportFile<T> = ExportFile(name: string, relativePath: string, content: Parsed<T>)

  /** The in-memory export: channels, users and each channel's raw messages. */
  datatype SlackExport<T> = SlackExport(channels: seq<T>, users: seq<T>, messages: map<string, seq<T>>)

  /** What a file contributes to, decided by its name alone. */
  datatype Role = ChannelList | UserList | MessageFile(channel: string) | Ignored

  predicate EndsWith(s: string, suffix: string) {
    |suffix| <= |s| && s[|s| - |suffix|..] == suffix
  }

  /** `s.split(sep)`: the pieces between separators, always at least one. */
  function Split(s: string, sep: char): (parts: seq<string>)
    ensures |parts| >= 1
    ensures forall i :: 0 <= i < |parts| ==> sep !in parts[i]
    ensures |parts| == 1 <==> sep !in s
  {
    if s == [] then [""]
    else
      var rest := Split(s[1..], sep);
      if s[0] == sep then [""] + rest
      else [[s[0]] + rest[0]] + rest[1..]
  }

  /** `parts.join(sep)`, the inverse of `Split`. */
  function Join(parts: seq<string>, sep: char): string
    requires |parts| >= 1
  {
    if |parts| == 1 then parts[0] else parts[0] + [sep] + Join(parts[1..], sep)
  }

  /** Splitting undoes joining pieces that do not contain the separator. */
  lemma {:induction false} SplitJoin(parts: seq<string>, sep: char)
    requires |parts| >= 1
    requires forall i :: 0 <= i < |parts| ==> sep !in parts[i]
    ensures Split(Join(parts, sep), sep) == parts
  {
    if |parts| == 1 {
      SplitPiece(parts[0], [], sep);
      assert parts[0] + [] == parts[0];
    } else {
      SplitJoin(parts[1..], sep);
      SplitPiece(parts[0], [sep] + Join(parts[1..], sep), sep);
      assert parts[0] + [sep] + Join(parts[1..], sep) == parts[0] + ([sep] + Join(parts[1..], sep));
      assert [""] + parts[1..] == [""] + Split(Join(parts[1..], sep), sep);
      assert ([""] + parts[1..])[1..] == parts[1..];
    }
  }

  /** A leading piece without the separator becomes the head of the first part. */
  lemma {:induction false} SplitPiece(piece: string, rest: string, sep: char)
    requires sep !in piece
    requires rest == [] || rest[0] == sep
    ensures Split(piece + rest, sep) ==
      (if rest == [] then [piece] else [piece] + Split(rest[1..], sep))
  {
    if piece == [] {
      assert piece + rest == rest;
    } else {
      SplitPiece(piece[1..], rest, sep);
      assert (piece + rest)[1..] == piece[1..] + rest;
      assert [piece[0]] + piece[1..] == piece;
    }
  }

  /** The channel a message file belongs to: the second-to-last component of its
      path, or "unknown" when that component is missing or empty. */
  function ChannelKey(relativePath: string): (k: string)
    ensures k != "" && '/' !in k
    ensures '/' !in relativePath ==> k == "unknown"
  {
    var parts := Split(relativePath, '/');
    if |parts| >= 2 && parts[|parts| - 2] != "" then parts[|parts| - 2] else "unknown"
  }

  /** Names are tested in order: the channel list, the user list, then any other
      `.json` name containing a hyphen. */
  function FileRole<T>(f: ExportFile<T>): (r: Role)
    ensures r == ChannelList <==> f.name == "channels.json"
    ensures r == UserList <==> f.name == "users.json"
    ensures r.MessageFile? <==>
      f.name != "channels.json" && f.name != "users.json" && EndsWith(f.name, ".json") && '-' in f.name
    ensures r.MessageFile? ==> r.channel == ChannelKey(f.relativePath)
  {
    if f.name == "channels.json" then ChannelList
    else if f.name == "users.json" then UserList
    else if EndsWith(f.name, ".json") && '-' in f.name then MessageFile(ChannelKey(f.relativePath))
    else Ignored
  }

  /** Nothing gathered yet. */
  function Empty<T>(): SlackExport<T> {
    SlackExport([], [], map[])
  }

  /** Merges one read file into the export. A parse failure skips the file; a value
      that is not an array still creates its channel's entry, because the entry is
      created before the spread fails. */
  function Step<T>(e: SlackExport<T>, f: ExportFile<T>): SlackExport<T> {
    match f.content
    case JsonArray(items) =>
      (match FileRole(f)
       case ChannelList => e.(channels := e.channels + items)
       case UserList => e.(users := e.users + items)
       case MessageFile(k) =>
         var prior := if k in e.messages then e.messages[k] else [];
         e.(messages := e.messages[k := prior + items])
       case Ignored => e)
    case NotIterable =>
      (match FileRole(f)
       case MessageFile(k) => if k in e.messages then e else e.(messages := e.messages[k := []])
       case _ => e)
    case _ => e
  }

  /** The export the files produce, in upload order; nothing when any read fails. */
  function Ingest<T>(files: seq<ExportFile<T>>): Option<SlackExport<T>> {
    if files == [] then Some(Empty())
    else
      var last := files[|files| - 1];
      match Ingest(files[..|files| - 1])
      case None => None
      case Some(e) => if last.content.Unreadable? then None else Some(Step(e, last))
  }

  /** The array items, in order, of the files with role `r`. */
  function Items<T>(files: seq<ExportFile<T>>, r: Role): seq<T> {
    if files == [] then []
    else
      var last := files[|files| - 1];
      Items(files[..|files| - 1], r) +
        (if FileRole(last) == r && last.content.JsonArray? then last.content.items else [])
  }

  /** Some message file for channel `k` parsed to a JSON value. */
  predicate KeyCreated<T>(files: seq<ExportFile<T>>, k: string) {
    exists i :: 0 <= i < |files| && FileRole(files[i]) == MessageFile(k) &&
      (files[i].content.JsonArray? || files[i].content.NotIterable?)
  }

  /** Ingestion fails exactly when some file cannot be read. */
  lemma {:induction false} IngestFailsIffUnreadable<T>(files: seq<ExportFile<T>>)
    ensures Ingest(files).None? <==> exists i :: 0 <= i < |files| && files[i].content.Unreadable?
  {
    if files != [] {
      var init := files[..|files| - 1];
      IngestFailsIffUnreadable(init);
      if Ingest(init).None? {
        var i :| 0 <= i < |init| && init[i].content.Unreadable?;
        assert files[i] == init[i];
      } else {
        forall i | 0 <= i < |files| - 1 ensures !files[i].content.Unreadable? {
          assert files[i] == init[i];
        }
      }
    }
  }

  /** The export gathers, in upload order, the arrays of the channel-list files as
      channels, of the user-list files as users, and of each channel's message files
      as that channel's messages; a channel has an entry exactly when one of its
      message files parsed, even to a value that is not an array. */
  lemma {:induction false} IngestGathers<T>(files: seq<ExportFile<T>>)
    requires Ingest(files).Some?
    ensures Ingest(files).value.channels == Items(files, ChannelList)
    ensures Ingest(files).value.users == Items(files, UserList)
    ensures forall k :: k in Ingest(files).value.messages <==> KeyCreated(files, k)
    ensures forall k | k in Ingest(files).value.messages ::
      Ingest(files).value.messages[k] == Items(files, MessageFile(k))
  {
    if files != [] {
      var init := files[..|files| - 1];
      var last := files[|files| - 1];
      IngestGathers(init);
      assert files == init + [last];
      GatheredStep(init, last, Ingest(init).value);
    }
  }

  /** What `IngestGathers` states of an export gathered from `files`. */
  ghost predicate Gathered<T>(files: seq<ExportFile<T>>, e: SlackExport<T>) {
    e.channels == Items(files, ChannelList) &&
    e.users == Items(files, UserList) &&
    (forall k :: k in e.messages <==> KeyCreated(files, k)) &&
    (forall k | k in e.messages :: e.messages[k] == Items(files, MessageFile(k)))
  }

  lemma GatheredStep<T>(init: seq<ExportFile<T>>, last: ExportFile<T>, e: SlackExport<T>)
    requires Gathered(init, e)
    ensures Gathered(init + [last], Step(e, last))
  {
    var files := init + [last];
    assert files[..|files| - 1] == init && files[|files| - 1] == last;
    GatheredKeys(init, last, e);
    GatheredValues(init, last, e);
  }

  lemma GatheredKeys<T>(init: seq<ExportFile<T>>, last: ExportFile<T>, e: SlackExport<T>)
    requires forall k :: k in e.messages <==> KeyCreated(init, k)
    ensures forall k :: k in Step(e, last).messages <==> KeyCreated(init + [last], k)
  {
    forall k ensures k in Step(e, last).messages <==> KeyCreated(init + [last], k) {
      KeyCreatedSnoc(init, last, k);
    }
  }

  lemma GatheredValues<T>(init: seq<ExportFile<T>>, last: ExportFile<T>, e: SlackExport<T>)
    requires forall k :: k in e.messages <==> KeyCreated(init, k)
    requires forall k | k in e.messages :: e.messages[k] == Items(init, MessageFile(k))
    ensures forall k | k in Step(e, last).messages ::
      Step(e, last).messages[k] == Items(init + [last], MessageFile(k))
  {
    var files := init + [last];
    assert files[..|files| - 1] == init && files[|files| - 1] == last;
    forall k | k in Step(e, last).messages
      ensures Step(e, last).messages[k] == Items(files, MessageFile(k))
    {
      if k !in e.messages {
        ItemsWithoutKey(init, k);
      }
    }
  }

  /** Appending a file creates a channel's entry exactly when it is a parsed message
      file of that channel. */
  lemma KeyCreatedSnoc<T>(init: seq<ExportFile<T>>, f: ExportFile<T>, k: string)
    ensures KeyCreated(init + [f], k) <==>
      KeyCreated(init, k) || (FileRole(f) == MessageFile(k) && (f.content.JsonArray? || f.content.NotIterable?))
  {
    var files := init + [f];
    if KeyCreated(files, k) {
      var i :| 0 <= i < |files| && FileRole(files[i]) == MessageFile(k) &&
        (files[i].content.JsonArray? || files[i].content.NotIterable?);
      if i < |init| {
        assert files[i] == init[i];
      }
    }
    if KeyCreated(init, k) {
      var i :| 0 <= i < |init| && FileRole(init[i]) == MessageFile(k) &&
        (init[i].content.JsonArray? || init[i].content.NotIterable?);
      assert files[i] == init[i];
    }
    if FileRole(f) == MessageFile(k) && (f.content.JsonArray? || f.content.NotIterable?) {
      assert files[|init|] == f;
    }
  }

  /** A channel none of whose message files parsed gathers no messages. */
  lemma {:induction false} ItemsWithoutKey<T>(files: seq<ExportFile<T>>, k: string)
    requires !KeyCreated(files, k)
    ensures Items(files, MessageFile(k)) == []
  {
    if files != [] {
      var init := files[..|files| - 1];
      assert files == init + [files[|files| - 1]];
      KeyCreatedSnoc(init, files[|files| - 1], k);
      ItemsWithoutKey(init, k);
    }
  }

  /** A file that fails to parse, or whose name matches no role, can be dropped from
      the upload without changing the result. */
  lemma {:induction false} SkippedFileChangesNothing<T>(pre: seq<ExportFile<T>>, f: ExportFile<T>, post: seq<ExportFile<T>>)
    requires f.content.Malformed? || (FileRole(f).Ignored? && !f.content.Unreadable?)
    ensures Ingest(pre + [f] + post) == Ingest(pre + post)
  {
    if post == [] {
      assert pre + [f] + post == pre + [f];
      assert (pre + [f])[..|pre|] == pre;
      assert pre + post == pre;
    } else {
      var init := post[..|post| - 1];
      SkippedFileChangesNothing(pre, f, init);
      assert (pre + [f] + post)[..|pre + [f] + post| - 1] == pre + [f] + init;
      assert (pre + post)[..|pre + post| - 1] == pre + init;
    }
  }

  /** `parseSlackExport`: reads the files one after another and merges each into the
      lists being built. */
  method ParseSlackExport<T>(files: seq<ExportFile<T>>) returns (r: Option<SlackExport<T>>)
    ensures r == Ingest(files)
    ensures r.None? <==> exists i :: 0 <= i < |files| && files[i].content.Unreadable?
  {
    var channels: seq<T> := [];
    var users: seq<T> := [];
    var messages: map<string, seq<T>> := map[];
    var i := 0;
    while i < |files|
      invariant 0 <= i <= |files|
      invariant Ingest(files[..i]) == Some(SlackExport(channels, users, messages))
    {
      var file := files[i];
      assert files[..i + 1] == files[..i] + [file];
      if file.content.Unreadable? {
        IngestFailsIffUnreadable(files);
        return None;
      }
      ghost var before := SlackExport(channels, users, messages);
      match file.content {
        case JsonArray(data) =>
          if file.name == "channels.json" {
            channels := channels + data;
          } else if file.name == "users.json" {
            users := users + data;
          } else if EndsWith(file.name, ".json") && '-' in file.name {
            var channelName := ChannelKey(file.relativePath);
            if channelName !in messages {
              messages := messages[channelName := []];
            }
            messages := messages[channelName := messages[channelName] + data];
          }
        case NotIterable =>
          if file.name != "channels.json" && file.name != "users.json" &&
             EndsWith(file.name, ".json") && '-' in file.name {
            var channelName := ChannelKey(file.relativePath);
            if channelName !in messages {
              messages := messages[channelName := []];
            }
          }
        case _ =>
      }
      assert SlackExport(channels, users, messages) == Step(before, file);
      i := i + 1;
    }
    assert files[..i] == files;
    IngestFailsIffUnreadable(files);
    r := Some(SlackExport(channels, users, messages));
  }

  /** A message file's channel is the directory directly above it, when that
      directory has a name. */
  lemma ChannelKeyOfPath(parts: seq<string>)
    requires |parts| >= 2
    requires forall i :: 0 <= i < |parts| ==> '/' !in parts[i]
    ensures ChannelKey(Join(parts, '/')) == if parts[|parts| - 2] != "" then parts[|parts| - 2] else "unknown"
  {
    SplitJoin(parts, '/');
    ChannelKeyOfSplit(Join(parts, '/'), parts);
  }

  lemma ChannelKeyOfSplit(path: string, parts: seq<string>)
    requires Split(path, '/') == parts && |parts| >= 2
    ensures ChannelKey(path) == if parts[|parts| - 2] != "" then parts[|parts| - 2] else "unknown"
  {
  }
}

/** Message text flattened to a plain string (`renderMessageText`): five global
    replacements applied one after another to the text, user mentions first, then
    channel mentions, then the three broadcasts. Links are left as they are. */
module Render {
  import opened Wrappers
  import opened SlackTypes
  import opened Lookup
  import opened Markup
  import opened Tokenizer

  /** One global replacement. */
  datatype Pass = UserPass | ChannelPass | BroadcastPass(name: string)

  /** The second character every match of a pass has. */
  function PassChar(p: Pass): char {
    match p
    case UserPass => '@'
    case ChannelPass => '#'
    case BroadcastPass(_) => '!'
  }

  /** What a pass replaces at the start of `t`: how many characters, and by what.
      A user mention `<@id>` becomes the name of the user with that id, without
      `@`, and is kept as it is when no user has the id; a channel mention
      `<#id|name>` becomes `#name`; the broadcast `<!name>` becomes `@name`. */
  function PassMatch(p: Pass, t: string, users: seq<User>): (r: Option<(nat, string)>)
    ensures r.Some? ==> 2 <= r.value.0 <= |t| && t[0] == '<' && t[1] == PassChar(p)
    ensures r.Some? && p.UserPass? ==> UserReplaced(t, r.value.0, r.value.1, users)
    ensures r.Some? && p.ChannelPass? ==> ChannelReplaced(t, r.value.0, r.value.1)
    ensures r.Some? && p.BroadcastPass? ==>
      t[..r.value.0] == "<!" + p.name + ">" && r.value.1 == "@" + p.name
  {
    match p
    case UserPass => UserMatch(t, users)
    case ChannelPass => ChannelMatch(t)
    case BroadcastPass(name) =>
      var lit := "<!" + name + ">";
      if StartsWith(t, lit) then
        assert t[..|lit|] == lit;
        Some((|lit|, "@" + name))
      else None
  }

  /** The first `n` characters of `t` are a user mention `<@id>` and `rep` is what
      replaces it: the name of the user with that id, or the mention itself when no
      user has it. */
  predicate UserReplaced(t: string, n: nat, rep: string, users: seq<User>) {
    4 <= n <= |t| && t[n - 1] == '>' &&
    rep == (match GetUserById(users, t[2..n - 1])
            case Some(u) => DisplayName(u)
            case None => t[..n])
  }

  /** The first `n` characters of `t` end with `|name>` and `rep` is `#name`. */
  predicate ChannelReplaced(t: string, n: nat, rep: string) {
    |rep| + 3 <= n <= |t| && t[n - 1] == '>' && t[n - 1 - |rep|] == '|' &&
    rep == "#" + t[n - |rep|..n - 1]
  }

  /** The user pass at the start of `t`. */
  function UserMatch(t: string, users: seq<User>): (r: Option<(nat, string)>)
    ensures r.Some? ==> 2 <= r.value.0 <= |t| && t[0] == '<' && t[1] == '@'
    ensures r.Some? ==> UserReplaced(t, r.value.0, r.value.1, users)
  {
    match MatchUser(t)
    case Some(tok) =>
      UserSound(t);
      UserText(t, tok.userId);
      Some((|Source(tok)|, match GetUserById(users, tok.userId)
                            case Some(u) => DisplayName(u)
                            case None => Source(tok)))
    case None => None
  }

  /** The channel pass at the start of `t`. */
  function ChannelMatch(t: string): (r: Option<(nat, string)>)
    ensures r.Some? ==> 2 <= r.value.0 <= |t| && t[0] == '<' && t[1] == '#'
    ensures r.Some? ==> ChannelReplaced(t, r.value.0, r.value.1)
  {
    match MatchChannel(t)
    case Some(tok) =>
      ChannelSound(t);
      ChannelText(t, tok.channelId, tok.name);
      Some((|Source(tok)|, "#" + tok.name))
    case None => None
  }

  /** Where the id of a user mention sits in the text it was read from. */
  lemma UserText(t: string, id: string)
    requires StartsWith(t, Source(UserTok(id)))
    ensures |Source(UserTok(id))| == |id| + 3 && t[..|id| + 3] == Source(UserTok(id))
    ensures t[|id| + 2] == '>' && t[2..|id| + 2] == id
  {
    var src := Source(UserTok(id));
    assert src == "<@" + id + ">";
    assert t[..|src|] == src;
    assert src[2..|id| + 2] == id;
    assert t[2..|id| + 2] == src[2..|id| + 2];
    assert src[|id| + 2] == '>';
  }

  /** Where the name of a channel mention sits in the text it was read from. */
  lemma ChannelText(t: string, id: string, name: string)
    requires StartsWith(t, Source(ChannelTok(id, name)))
    ensures var n := |Source(ChannelTok(id, name))|;
      n == |id| + |name| + 4 && t[n - 1] == '>' && t[n - 2 - |name|] == '|' &&
      t[n - 1 - |name|..n - 1] == name
  {
    var src := Source(ChannelTok(id, name));
    var n := |src|;
    assert src == "<#" + id + "|" + name + ">";
    assert t[..n] == src;
    assert src[n - 1 - |name|..n - 1] == name;
    assert t[n - 1 - |name|..n - 1] == src[n - 1 - |name|..n - 1];
    assert src[n - 2 - |name|] == '|' && src[n - 1] == '>';
  }

  /** `String.replace` with a global pattern: matches are taken left to right
      without overlapping, and the text between them is copied. */
  function ReplaceAll(p: Pass, s: string, users: seq<User>): string
    decreases |s|
  {
    if s == [] then []
    else
      match PassMatch(p, s, users)
      case Some((n, rep)) => rep + ReplaceAll(p, s[n..], users)
      case None => [s[0]] + ReplaceAll(p, s[1..], users)
  }

  /** `renderMessageText`. */
  function RenderMessageText(message: Message, users: seq<User>): string {
    RenderText(message.text, users)
  }

  function RenderText(text: string, users: seq<User>): string {
    var withUsers := ReplaceAll(UserPass, text, users);
    var withChannels := ReplaceAll(ChannelPass, withUsers, users);
    var withEveryone := ReplaceAll(BroadcastPass("everyone"), withChannels, users);
    var withChannel := ReplaceAll(BroadcastPass("channel"), withEveryone, users);
    ReplaceAll(BroadcastPass("here"), withChannel, users)
  }

  /** What the renderer turns one piece of markup into, independently of the
      passes: a known user's name, `#` and a channel's name, `@` and a broadcast's
      name; a link and an unknown user's mention stay as written. */
  function Rendered(tok: Token, users: seq<User>): string {
    match tok
    case LinkTok(_, _) => Source(tok)
    case UserTok(id) =>
      (match GetUserById(users, id)
       case Some(u) => DisplayName(u)
       case None => Source(tok))
    case ChannelTok(_, name) => "#" + name
    case BroadcastTok(name) => "@" + name
  }

  /** A pass leaves text without `<` unchanged. */
  lemma {:induction false} ReplaceAllNoAngle(p: Pass, s: string, users: seq<User>)
    requires '<' !in s
    ensures ReplaceAll(p, s, users) == s
    decreases |s|
  {
    if s != [] {
      assert s[0] != '<';
      assert '<' !in s[1..];
      ReplaceAllNoAngle(p, s[1..], users);
      assert [s[0]] + s[1..] == s;
    }
  }

  /** A pass copies a prefix without `<` and carries on after it. */
  lemma {:induction false} ReplaceAllSkip(p: Pass, g: string, s: string, users: seq<User>)
    requires '<' !in g
    ensures ReplaceAll(p, g + s, users) == g + ReplaceAll(p, s, users)
    decreases |g|
  {
    if g == [] {
      assert g + s == s;
    } else {
      var t := g + s;
      assert t[0] == g[0] && t[0] != '<';
      assert t[1..] == g[1..] + s;
      assert '<' !in g[1..] by {
        assert forall c | c in g[1..] :: c in g;
      }
      var rest := ReplaceAll(p, g[1..] + s, users);
      assert ReplaceAll(p, t, users) == [g[0]] + rest by {
        assert PassMatch(p, t, users).None?;
      }
      ReplaceAllSkip(p, g[1..], s, users);
      HeadTail(g, ReplaceAll(p, s, users));
    }
  }

  lemma HeadTail(g: string, r: string)
    requires g != []
    ensures [g[0]] + (g[1..] + r) == g + r
  {
    assert [g[0]] + g[1..] == g;
  }

  /** Text without `<` renders as itself. */
  lemma RenderWithoutMarkup(text: string, users: seq<User>)
    requires '<' !in text
    ensures RenderText(text, users) == text
  {
    ReplaceAllNoAngle(UserPass, text, users);
    ReplaceAllNoAngle(ChannelPass, text, users);
    ReplaceAllNoAngle(BroadcastPass("everyone"), text, users);
    ReplaceAllNoAngle(BroadcastPass("channel"), text, users);
    ReplaceAllNoAngle(BroadcastPass("here"), text, users);
  }

  /** On text whose only `<` is its first character, a pass replaces at most that
      one match. */
  lemma PassOnce(p: Pass, s: string, users: seq<User>)
    requires |s| >= 1 && s[0] == '<' && '<' !in s[1..]
    ensures PassMatch(p, s, users).None? ==> ReplaceAll(p, s, users) == s
    ensures PassMatch(p, s, users).Some? ==>
      ReplaceAll(p, s, users) == PassMatch(p, s, users).value.1 + s[PassMatch(p, s, users).value.0..]
  {
    match PassMatch(p, s, users)
    case Some((n, rep)) =>
      assert '<' !in s[n..] by {
        assert forall c | c in s[n..] :: c in s[1..];
      }
      ReplaceAllNoAngle(p, s[n..], users);
    case None =>
      ReplaceAllNoAngle(p, s[1..], users);
      assert [s[0]] + s[1..] == s;
  }

  /** A pass over `pre + s + post`, where the only `<` is the first character of
      `s`, replaces at most the match at `s` and copies everything around it. */
  lemma PassInContext(p: Pass, pre: string, s: string, post: string, users: seq<User>)
    requires '<' !in pre && '<' !in post
    requires |s| >= 1 && s[0] == '<' && '<' !in s[1..]
    ensures PassMatch(p, s + post, users).None? ==>
      ReplaceAll(p, pre + s + post, users) == pre + s + post
    ensures PassMatch(p, s + post, users).Some? ==>
      var (n, rep) := PassMatch(p, s + post, users).value;
      ReplaceAll(p, pre + s + post, users) == pre + rep + (s + post)[n..]
  {
    assert pre + s + post == pre + (s + post);
    ReplaceAllSkip(p, pre, s + post, users);
    assert '<' !in (s + post)[1..] by {
      assert forall c | c in (s + post)[1..] :: c in s[1..] || c in post;
    }
    PassOnce(p, s + post, users);
  }

  /** A pass leaves the text unchanged when its only `<` starts markup of another
      kind. */
  lemma PassLeaves(p: Pass, pre: string, s: string, post: string, users: seq<User>)
    requires '<' !in pre && '<' !in post
    requires |s| >= 2 && s[0] == '<' && '<' !in s[1..] && s[1] != PassChar(p)
    ensures ReplaceAll(p, pre + s + post, users) == pre + s + post
  {
    assert (s + post)[1] == s[1];
    PassInContext(p, pre, s, post, users);
  }

  /** A pass that replaces the markup `s` by `rep` leaves `pre + rep + post`. */
  lemma PassReplaces(p: Pass, pre: string, s: string, post: string, rep: string, users: seq<User>)
    requires '<' !in pre && '<' !in post
    requires |s| >= 1 && s[0] == '<' && '<' !in s[1..]
    requires PassMatch(p, s + post, users) == Some((|s|, rep))
    ensures ReplaceAll(p, pre + s + post, users) == pre + rep + post
  {
    PassInContext(p, pre, s, post, users);
    assert (s + post)[|s|..] == post;
  }

  /** The three broadcast passes leave text without `<` unchanged. */
  lemma RenderBroadcastsPlain(s: string, users: seq<User>)
    requires '<' !in s
    ensures ReplaceAll(BroadcastPass("here"), ReplaceAll(BroadcastPass("channel"),
      ReplaceAll(BroadcastPass("everyone"), s, users), users), users) == s
  {
    ReplaceAllNoAngle(BroadcastPass("everyone"), s, users);
    ReplaceAllNoAngle(BroadcastPass("channel"), s, users);
    ReplaceAllNoAngle(BroadcastPass("here"), s, users);
  }

  /** The three broadcast passes leave unchanged text whose only `<` starts markup
      that is not a broadcast. */
  lemma BroadcastsLeave(pre: string, s: string, post: string, users: seq<User>)
    requires '<' !in pre && '<' !in post
    requires |s| >= 2 && s[0] == '<' && '<' !in s[1..] && s[1] != '!'
    ensures ReplaceAll(BroadcastPass("here"), ReplaceAll(BroadcastPass("channel"),
      ReplaceAll(BroadcastPass("everyone"), pre + s + post, users), users), users) == pre + s + post
  {
    PassLeaves(BroadcastPass("everyone"), pre, s, post, users);
    PassLeaves(BroadcastPass("channel"), pre, s, post, users);
    PassLeaves(BroadcastPass("here"), pre, s, post, users);
  }

  /** A piece of markup whose only `<` is its first, with text without `<` around
      it, renders as that markup's `Rendered` form with the text around it copied:
      every pass replaces the occurrence wherever it stands. */
  lemma RenderInContext(pre: string, tok: Token, post: string, users: seq<User>)
    requires ValidToken(tok) && '<' !in Source(tok)[1..]
    requires '<' !in pre && '<' !in post
    requires tok.UserTok? && GetUserById(users, tok.userId).Some? ==>
      '<' !in DisplayName(GetUserById(users, tok.userId).value)
    ensures RenderText(pre + Source(tok) + post, users) == pre + Rendered(tok, users) + post
  {
    match tok {
      case LinkTok(_, _) => RenderLink(pre, tok, post, users);
      case UserTok(id) => RenderUser(pre, id, post, users);
      case ChannelTok(id, name) => RenderChannel(pre, id, name, post, users);
      case BroadcastTok(name) => RenderBroadcast(pre, name, post, users);
    }
  }

  /** No pass touches a link, wherever it stands. */
  lemma RenderLink(pre: string, tok: Token, post: string, users: seq<User>)
    requires tok.LinkTok? && ValidToken(tok) && '<' !in Source(tok)[1..]
    requires '<' !in pre && '<' !in post
    ensures RenderText(pre + Source(tok) + post, users) == pre + Source(tok) + post
  {
    var src := Source(tok);
    assert src[1] == 'h' by {
      assert StartsWith(tok.url, "http://") || StartsWith(tok.url, "https://");
      assert src[1] == tok.url[0];
    }
    PassLeaves(UserPass, pre, src, post, users);
    PassLeaves(ChannelPass, pre, src, post, users);
    BroadcastsLeave(pre, src, post, users);
  }

  /** A user mention, wherever it stands, becomes the user's name when the id is
      known, and is kept as written otherwise. */
  lemma RenderUser(pre: string, id: string, post: string, users: seq<User>)
    requires ValidToken(UserTok(id)) && '<' !in Source(UserTok(id))[1..]
    requires '<' !in pre && '<' !in post
    requires GetUserById(users, id).Some? ==> '<' !in DisplayName(GetUserById(users, id).value)
    ensures GetUserById(users, id).Some? ==>
      RenderText(pre + Source(UserTok(id)) + post, users) ==
      pre + DisplayName(GetUserById(users, id).value) + post
    ensures GetUserById(users, id).None? ==>
      RenderText(pre + Source(UserTok(id)) + post, users) == pre + Source(UserTok(id)) + post
  {
    var src := Source(UserTok(id));
    var t := src + post;
    assert t[..|src|] == src;
    UserComplete(t, id);
    assert src[1] == '@';
    if u :| GetUserById(users, id) == Some(u) {
      var name := DisplayName(u);
      PassReplaces(UserPass, pre, src, post, name, users);
      var out := pre + name + post;
      assert '<' !in out;
      ReplaceAllNoAngle(ChannelPass, out, users);
      RenderBroadcastsPlain(out, users);
    } else {
      PassReplaces(UserPass, pre, src, post, src, users);
      PassLeaves(ChannelPass, pre, src, post, users);
      BroadcastsLeave(pre, src, post, users);
    }
  }

  /** A channel mention, wherever it stands, becomes `#` and the channel's name. */
  lemma RenderChannel(pre: string, id: string, name: string, post: string, users: seq<User>)
    requires ValidToken(ChannelTok(id, name)) && '<' !in Source(ChannelTok(id, name))[1..]
    requires '<' !in pre && '<' !in post
    ensures RenderText(pre + Source(ChannelTok(id, name)) + post, users) == pre + "#" + name + post
  {
    var src := Source(ChannelTok(id, name));
    var text := pre + src + post;
    var out := pre + "#" + name + post;
    assert text == pre + Source(ChannelTok(id, name)) + post;
    ChannelPassInContext(pre, id, name, post, users);
    ChannelNamePlain(id, name);
    assert '<' !in out;
    RenderBroadcastsPlain(out, users);
  }

  /** The user pass leaves a channel mention in place and the channel pass
      replaces it. */
  lemma ChannelPassInContext(pre: string, id: string, name: string, post: string, users: seq<User>)
    requires ValidToken(ChannelTok(id, name)) && '<' !in Source(ChannelTok(id, name))[1..]
    requires '<' !in pre && '<' !in post
    ensures var text := pre + Source(ChannelTok(id, name)) + post;
      ReplaceAll(ChannelPass, ReplaceAll(UserPass, text, users), users) == pre + "#" + name + post
  {
    var src := Source(ChannelTok(id, name));
    assert (src + post)[..|src|] == src;
    ChannelPassAt(src + post, id, name, users);
    assert src[1] == '#';
    PassLeaves(UserPass, pre, src, post, users);
    PassReplaces(ChannelPass, pre, src, post, "#" + name, users);
    Regroup(pre, '#', name, post);
  }

  /** A channel mention whose only `<` is its first has a name without `<`. */
  lemma ChannelNamePlain(id: string, name: string)
    requires '<' !in Source(ChannelTok(id, name))[1..]
    ensures '<' !in name
  {
    var rest := Source(ChannelTok(id, name))[1..];
    assert rest == "#" + id + "|" + name + ">";
    assert rest[|id| + 2..|id| + 2 + |name|] == name;
  }

  /** The channel pass replaces a channel mention at the start of `t` by `#name`. */
  lemma ChannelPassAt(t: string, id: string, name: string, users: seq<User>)
    requires ValidToken(ChannelTok(id, name)) && StartsWith(t, Source(ChannelTok(id, name)))
    ensures PassMatch(ChannelPass, t, users) == Some((|Source(ChannelTok(id, name))|, "#" + name))
  {
    ChannelComplete(t, id, name);
  }

  /** The text of a broadcast, and the character that tells the three apart. */
  lemma BroadcastSource(name: string)
    requires ValidToken(BroadcastTok(name))
    ensures Source(BroadcastTok(name)) == "<!" + name + ">"
    ensures |Source(BroadcastTok(name))| == |name| + 3 && Source(BroadcastTok(name))[1] == '!'
    ensures Source(BroadcastTok(name))[2] == name[0]
    ensures '<' !in name && '<' !in Source(BroadcastTok(name))[1..]
  {
    assert Source(BroadcastTok(name))[1..] == "!" + name + ">";
  }

  /** The pass for broadcast `other` replaces the broadcast `name` when they are the
      same, and leaves it otherwise, wherever it stands. */
  lemma BroadcastPassOn(other: string, pre: string, name: string, post: string, users: seq<User>)
    requires ValidToken(BroadcastTok(other)) && ValidToken(BroadcastTok(name))
    requires '<' !in pre && '<' !in post
    ensures ReplaceAll(BroadcastPass(other), pre + Source(BroadcastTok(name)) + post, users) ==
      pre + (if other == name then "@" + name else Source(BroadcastTok(name))) + post
  {
    var src := Source(BroadcastTok(name));
    var t := src + post;
    BroadcastSource(name);
    BroadcastSource(other);
    assert t[..|src|] == src;
    if other == name {
      assert StartsWith(t, "<!" + other + ">");
      PassReplaces(BroadcastPass(other), pre, src, post, "@" + name, users);
    } else {
      assert t[2] == name[0] != other[0];
      NotPrefix(t, "<!" + other + ">", 2);
      PassInContext(BroadcastPass(other), pre, src, post, users);
    }
  }

  /** A broadcast, wherever it stands, becomes `@` and its name. */
  lemma RenderBroadcast(pre: string, name: string, post: string, users: seq<User>)
    requires ValidToken(BroadcastTok(name))
    requires '<' !in pre && '<' !in post
    ensures RenderText(pre + Source(BroadcastTok(name)) + post, users) == pre + "@" + name + post
  {
    var src := Source(BroadcastTok(name));
    BroadcastSource(name);
    PassLeaves(UserPass, pre, src, post, users);
    PassLeaves(ChannelPass, pre, src, post, users);
    var out := pre + "@" + name + post;
    Regroup(pre, '@', name, post);
    assert '<' !in out;
    if name == "everyone" {
      BroadcastPassOn("everyone", pre, name, post, users);
      ReplaceAllNoAngle(BroadcastPass("channel"), out, users);
      ReplaceAllNoAngle(BroadcastPass("here"), out, users);
    } else if name == "channel" {
      BroadcastPassOn("everyone", pre, name, post, users);
      BroadcastPassOn("channel", pre, name, post, users);
      ReplaceAllNoAngle(BroadcastPass("here"), out, users);
    } else {
      BroadcastPassOn("everyone", pre, name, post, users);
      BroadcastPassOn("channel", pre, name, post, users);
      BroadcastPassOn("here", pre, name, post, users);
    }
  }

  /** A user's name goes through the later passes: a known user whose name is a
      broadcast, such as `<!here>`, is shown as that broadcast is, `@here`, where
      `Rendered` gives the name itself. This is why the lemmas above ask for a
      name without `<`. */
  lemma NameRenderedAgain(id: string, b: string, users: seq<User>)
    requires ValidToken(UserTok(id)) && ValidToken(BroadcastTok(b))
    requires GetUserById(users, id).Some?
    requires DisplayName(GetUserById(users, id).value) == Source(BroadcastTok(b))
    ensures Rendered(UserTok(id), users) == Source(BroadcastTok(b))
    ensures RenderText(Source(UserTok(id)), users) == "@" + b
  {
    UserPassOnKnown(id, users);
    BroadcastAfterUserPass(Source(UserTok(id)), b, users);
  }

  /** Text the user pass turns into a broadcast renders as that broadcast. */
  lemma BroadcastAfterUserPass(src: string, b: string, users: seq<User>)
    requires ValidToken(BroadcastTok(b))
    requires ReplaceAll(UserPass, src, users) == Source(BroadcastTok(b))
    ensures RenderText(src, users) == "@" + b
  {
    var name := Source(BroadcastTok(b));
    NothingAround(name);
    BroadcastSource(b);
    PassLeaves(UserPass, "", name, "", users);
    SameAfterUserPass(src, name, users);
    RenderBroadcast("", b, "", users);
    NothingAround("@" + b);
  }

  /** The user pass replaces a known user's mention by the user's name, whatever
      that name holds. */
  lemma UserPassOnKnown(id: string, users: seq<User>)
    requires ValidToken(UserTok(id)) && GetUserById(users, id).Some?
    ensures ReplaceAll(UserPass, Source(UserTok(id)), users) == DisplayName(GetUserById(users, id).value)
  {
    var src := Source(UserTok(id));
    var name := DisplayName(GetUserById(users, id).value);
    UserSourcePlain(id);
    assert (src + "")[..|src|] == src;
    UserComplete(src + "", id);
    PassReplaces(UserPass, "", src, "", name, users);
    NothingAround(src);
    NothingAround(name);
  }

  /** A well-formed user mention has no `<` after its first character. */
  lemma UserSourcePlain(id: string)
    requires ValidToken(UserTok(id))
    ensures '<' !in Source(UserTok(id))[1..]
  {
    var rest := Source(UserTok(id))[1..];
    assert rest == "@" + id + ">";
    forall i | 0 <= i < |rest| ensures rest[i] != '<' {
      if 2 <= i <= |id| {
        assert rest[i] == id[1..][i - 2];
      }
    }
  }

  /** Texts the user pass turns into the same text render the same. */
  lemma SameAfterUserPass(a: string, b: string, users: seq<User>)
    requires ReplaceAll(UserPass, a, users) == ReplaceAll(UserPass, b, users)
    ensures RenderText(a, users) == RenderText(b, users)
  {
  }

  /** The renderer and the tokenizer agree on a piece of markup: a channel or a
      broadcast renders as the text of its segment; a known user renders as that
      text without its `@`; an unknown user's mention is left as written, as its
      segment shows it; a link is left as written, while its segment shows its
      label or url. */
  lemma RenderAgreesWithTokenizer(tok: Token, users: seq<User>)
    requires ValidToken(tok) && '<' !in Source(tok)[1..]
    requires tok.UserTok? && GetUserById(users, tok.userId).Some? ==>
      '<' !in DisplayName(GetUserById(users, tok.userId).value)
    ensures Tokenize(Source(tok), users) == [TokenElement(tok, users)]
    ensures tok.ChannelTok? || tok.BroadcastTok? ==>
      RenderText(Source(tok), users) == TokenElement(tok, users).text
    ensures tok.UserTok? && GetUserById(users, tok.userId).Some? ==>
      "@" + RenderText(Source(tok), users) == TokenElement(tok, users).text
    ensures tok.UserTok? && GetUserById(users, tok.userId).None? ==>
      RenderText(Source(tok), users) == TokenElement(tok, users).text == Source(tok)
    ensures tok.LinkTok? ==> RenderText(Source(tok), users) == Source(tok)
  {
    SingleToken(tok, "", users);
    assert Source(tok) + "" == Source(tok);
    RenderAlone(tok, users);
  }

  /** A text made of one piece of markup renders as its `Rendered` form. */
  lemma RenderAlone(tok: Token, users: seq<User>)
    requires ValidToken(tok) && '<' !in Source(tok)[1..]
    requires tok.UserTok? && GetUserById(users, tok.userId).Some? ==>
      '<' !in DisplayName(GetUserById(users, tok.userId).value)
    ensures RenderText(Source(tok), users) == Rendered(tok, users)
  {
    RenderInContext("", tok, "", users);
    NothingAround(Source(tok));
    NothingAround(Rendered(tok, users));
  }

  lemma NothingAround(s: string)
    ensures "" + s + "" == s
  {
  }

  lemma Regroup(pre: string, c: char, name: string, post: string)
    ensures pre + ([c] + name) + post == pre + [c] + name + post
  {
  }
}

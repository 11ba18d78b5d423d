/** The inline markup of the export's message text and its recognisers. Each
    recogniser reads a prefix of the text the way the corresponding alternative of
    the combined regular expression does: every repetition is greedy, and none of
    them can give characters back usefully, so the longest run is the one taken.
    All four kinds start with `<` and differ in the second character, so at most
    one of them matches at any position. */
module Markup {
  import opened Wrappers

  /** A piece of markup: a link with its optional label, a user mention, a channel
      mention, or one of the three broadcasts. Identifiers keep their leading
      letter (`U123`, `C123`); a link's url keeps its scheme. */
  datatype Token =
    | LinkTok(url: string, labelText: Option<string>)
    | UserTok(userId: string)
    | ChannelTok(channelId: string, name: string)
    | BroadcastTok(name: string)

  predicate StartsWith(s: string, prefix: string) {
    |prefix| <= |s| && s[..|prefix|] == prefix
  }

  predicate UpperAlnum(c: char) {
    ('A' <= c <= 'Z') || ('0' <= c <= '9')
  }

  /** Characters a link's url may contain after its scheme. */
  predicate UrlChar(c: char) {
    c != '|' && c != '>'
  }

  /** Characters a link label or a channel name may contain. */
  predicate LabelChar(c: char) {
    c != '>'
  }

  predicate AllOf(s: string, ok: char -> bool) {
    forall j :: 0 <= j < |s| ==> ok(s[j])
  }

  /** The length of the longest prefix of `s` made of characters satisfying `ok`. */
  function RunLen(s: string, ok: char -> bool): (n: nat)
    ensures n <= |s| && AllOf(s[..n], ok)
    ensures n < |s| ==> !ok(s[n])
  {
    if s == [] || !ok(s[0]) then 0 else 1 + RunLen(s[1..], ok)
  }

  /** The length of the scheme `https?://` at the start of `url`, 0 when there is
      none. */
  function SchemeLen(url: string): (n: nat)
    ensures n == 0 || n == 7 || n == 8
    ensures n <= |url|
  {
    if StartsWith(url, "https://") then 8 else if StartsWith(url, "http://") then 7 else 0
  }

  /** The text a token was read from. */
  function Source(tok: Token): (s: string)
    ensures |s| >= 1 && s[0] == '<'
  {
    match tok
    case LinkTok(url, labelText) => "<" + url + (if labelText.Some? then "|" + labelText.value else "")
    case UserTok(id) => "<@" + id + ">"
    case ChannelTok(id, name) => "<#" + id + "|" + name + ">"
    case BroadcastTok(name) => "<!" + name + ">"
  }

  /** A url the link alternative accepts: an http or https scheme followed by at
      least one character that is not `|` or `>`. */
  predicate ValidUrl(url: string) {
    SchemeLen(url) > 0 && |url| > SchemeLen(url) && AllOf(url[SchemeLen(url)..], UrlChar)
  }

  /** The tokens the grammar can produce. */
  predicate ValidToken(tok: Token) {
    match tok
    case LinkTok(url, labelText) =>
      ValidUrl(url) && (labelText.None? || (labelText.value != "" && AllOf(labelText.value, LabelChar)))
    case UserTok(id) =>
      |id| >= 2 && (id[0] == 'U' || id[0] == 'W') && AllOf(id[1..], UpperAlnum)
    case ChannelTok(id, name) =>
      |id| >= 2 && id[0] == 'C' && AllOf(id[1..], UpperAlnum) && name != "" && AllOf(name, LabelChar)
    case BroadcastTok(name) =>
      name == "everyone" || name == "channel" || name == "here"
  }

  /** What may follow a token's text: a link's url and label end where their
      character runs end, so a link is never followed by a character that would
      have extended it. The other kinds end with `>` and may be followed by
      anything. */
  predicate Delimited(tok: Token, rest: string) {
    match tok
    case LinkTok(_, None) =>
      rest == [] || rest[0] == '>' || (rest[0] == '|' && (|rest| == 1 || rest[1] == '>'))
    case LinkTok(_, Some(_)) => rest == [] || rest[0] == '>'
    case _ => true
  }

  /** `t` begins with the text of `tok`, and what follows is delimited. */
  predicate ReadsAs(t: string, tok: Token) {
    ValidToken(tok) && StartsWith(t, Source(tok)) && Delimited(tok, t[|Source(tok)|..])
  }

  // Facts about prefixes, slices and runs that the recognisers' proofs share.

  /** `StartsWith`, character by character. */
  lemma StartsWithChars(s: string, prefix: string)
    ensures StartsWith(s, prefix) <==>
      |prefix| <= |s| && forall i :: 0 <= i < |prefix| ==> s[i] == prefix[i]
  {
    if |prefix| <= |s| && forall i :: 0 <= i < |prefix| ==> s[i] == prefix[i] {
      assert s[..|prefix|] == prefix;
    }
    if StartsWith(s, prefix) {
      forall i | 0 <= i < |prefix| ensures s[i] == prefix[i] {
        assert s[..|prefix|][i] == s[i];
      }
    }
  }

  /** Whether a prefix long enough to hold `lit` starts with it does not depend on
      what follows the prefix. */
  lemma PrefixStartsWith(u: string, v: string, lit: string)
    requires |lit| <= |u| <= |v| && u == v[..|u|]
    ensures StartsWith(u, lit) <==> StartsWith(v, lit)
  {
    assert u[..|lit|] == v[..|lit|];
  }

  /** The scheme of a url is read from its first eight characters. */
  lemma PrefixScheme(u: string, v: string)
    requires 8 <= |u| <= |v| && u == v[..|u|]
    ensures SchemeLen(u) == SchemeLen(v)
  {
    PrefixStartsWith(u, v, "https://");
    PrefixStartsWith(u, v, "http://");
  }

  /** A run that stops at a character outside the class is the run `RunLen` finds. */
  lemma {:induction false} RunLenExact(s: string, ok: char -> bool, k: nat)
    requires k <= |s| && AllOf(s[..k], ok)
    requires k == |s| || !ok(s[k])
    ensures RunLen(s, ok) == k
  {
    if k > 0 {
      assert ok(s[..k][0]);
      assert s[1..][..k - 1] == s[..k][1..];
      assert k - 1 < |s[1..]| ==> s[1..][k - 1] == s[k];
      RunLenExact(s[1..], ok, k - 1);
    }
  }

  /** The run `RunLen` finds from offset `k` of `t`, stated on `t` itself. */
  lemma RunAt(t: string, k: nat, ok: char -> bool)
    requires k <= |t|
    ensures k + RunLen(t[k..], ok) <= |t|
    ensures AllOf(t[k..k + RunLen(t[k..], ok)], ok)
    ensures k + RunLen(t[k..], ok) < |t| ==> !ok(t[k + RunLen(t[k..], ok)])
  {
    var n := RunLen(t[k..], ok);
    assert t[k..k + n] == t[k..][..n];
    if k + n < |t| {
      assert t[k + n] == t[k..][n];
    }
  }

  /** A run from offset `k` of `t` that stops at a character outside the class is
      the run `RunLen` finds there. */
  lemma RunAtExact(t: string, k: nat, n: nat, ok: char -> bool)
    requires k + n <= |t| && AllOf(t[k..k + n], ok)
    requires k + n == |t| || !ok(t[k + n])
    ensures RunLen(t[k..], ok) == n
  {
    assert t[k..][..n] == t[k..k + n];
    if k + n < |t| {
      assert t[k..][n] == t[k + n];
    }
    RunLenExact(t[k..], ok, n);
  }

  /** A character inside the prefix `t` starts with. */
  lemma CharOf(t: string, src: string, i: nat)
    requires StartsWith(t, src) && i < |src|
    ensures t[i] == src[i]
  {
    assert t[..|src|][i] == t[i];
  }

  /** A piece inside the prefix `t` starts with. */
  lemma PieceOf(t: string, src: string, k: nat, piece: string)
    requires StartsWith(t, src) && k + |piece| <= |src|
    requires forall i :: 0 <= i < |piece| ==> src[k + i] == piece[i]
    ensures t[k..k + |piece|] == piece
  {
    forall i | 0 <= i < |piece| ensures t[k..k + |piece|][i] == piece[i] {
      CharOf(t, src, k + i);
    }
  }

  // The link alternative.

  /** The link alternative: `<`, an http(s) url, and an optional `|label`. The
      closing `>` is not part of the match. */
  function MatchLink(t: string): (r: Option<Token>)
    ensures r.Some? ==> r.value.LinkTok? && |t| >= 2 && t[0] == '<'
  {
    if |t| < 2 || t[0] != '<' || SchemeLen(t[1..]) == 0 then None
    else
      var p := 1 + SchemeLen(t[1..]);
      var n := RunLen(t[p..], UrlChar);
      if n == 0 then None
      else
        var q := p + n;
        var m := if q < |t| && t[q] == '|' then RunLen(t[q + 1..], LabelChar) else 0;
        Some(LinkAt(t, q, m))
  }

  /** What the link alternative finds is a link the text reads as. */
  lemma LinkSound(t: string)
    ensures MatchLink(t).Some? ==> ReadsAs(t, MatchLink(t).value)
  {
    if |t| >= 2 && t[0] == '<' && SchemeLen(t[1..]) > 0 {
      var p := 1 + SchemeLen(t[1..]);
      var n := RunLen(t[p..], UrlChar);
      if n > 0 {
        var q := p + n;
        var m := if q < |t| && t[q] == '|' then RunLen(t[q + 1..], LabelChar) else 0;
        LinkReads(t, p, n, m);
        LinkMatchFrom(t, q, m);
      }
    }
  }

  /** The link read from `t`: its url ends at `q`, and a label of `m` characters
      follows when `m` is not 0. */
  function LinkAt(t: string, q: nat, m: nat): Token
    requires 1 <= q <= |t| && (m > 0 ==> q + 1 + m <= |t|)
  {
    LinkTok(t[1..q], if m > 0 then Some(t[q + 1..q + 1 + m]) else None)
  }

  lemma LinkReads(t: string, p: nat, n: nat, m: nat)
    requires |t| >= 2 && t[0] == '<' && SchemeLen(t[1..]) > 0 && p == 1 + SchemeLen(t[1..])
    requires n == RunLen(t[p..], UrlChar) && n > 0
    requires m == if p + n < |t| && t[p + n] == '|' then RunLen(t[p + n + 1..], LabelChar) else 0
    ensures ReadsAs(t, LinkAt(t, p + n, m))
  {
    UrlReads(t, p, n);
    LinkFromRuns(t, p + n, m);
  }

  /** The url run ends the url, at the end of the text, a `|` or a `>`. */
  lemma UrlReads(t: string, p: nat, n: nat)
    requires |t| >= 2 && SchemeLen(t[1..]) > 0 && p == 1 + SchemeLen(t[1..])
    requires n == RunLen(t[p..], UrlChar) && n > 0
    ensures p + n <= |t| && ValidUrl(t[1..p + n])
    ensures p + n < |t| ==> t[p + n] == '|' || t[p + n] == '>'
  {
    RunAt(t, p, UrlChar);
    var url := t[1..p + n];
    assert url == t[1..][..|url|];
    PrefixScheme(url, t[1..]);
    assert url[p - 1..] == t[p..p + n];
  }

  lemma LinkFromRuns(t: string, q: nat, m: nat)
    requires 1 <= q <= |t| && t[0] == '<' && ValidUrl(t[1..q])
    requires q < |t| ==> t[q] == '|' || t[q] == '>'
    requires m == if q < |t| && t[q] == '|' then RunLen(t[q + 1..], LabelChar) else 0
    ensures ReadsAs(t, LinkAt(t, q, m))
  {
    if q < |t| && t[q] == '|' {
      RunAt(t, q + 1, LabelChar);
    }
    if m > 0 {
      LabelledLinkReads(t, q, m);
    } else {
      BareLinkReads(t, q);
    }
  }

  lemma BareLinkReads(t: string, q: nat)
    requires 1 <= q <= |t| && t[0] == '<' && ValidUrl(t[1..q])
    requires q == |t| || t[q] == '>' || (t[q] == '|' && (q + 1 == |t| || t[q + 1] == '>'))
    ensures ReadsAs(t, LinkAt(t, q, 0))
  {
    assert LinkAt(t, q, 0) == LinkTok(t[1..q], None);
    var src := Source(LinkTok(t[1..q], None));
    assert src == t[..q];
    var rest := t[q..];
    if q < |t| {
      assert rest[0] == t[q];
      if q + 1 < |t| {
        assert rest[1] == t[q + 1];
      }
    }
  }

  lemma LabelledLinkReads(t: string, q: nat, m: nat)
    requires 1 <= q < |t| && t[0] == '<' && ValidUrl(t[1..q]) && t[q] == '|'
    requires 0 < m && q + 1 + m <= |t| && AllOf(t[q + 1..q + 1 + m], LabelChar)
    requires q + 1 + m == |t| || t[q + 1 + m] == '>'
    ensures ReadsAs(t, LinkAt(t, q, m))
  {
    var url, lab := t[1..q], t[q + 1..q + 1 + m];
    assert LinkAt(t, q, m) == LinkTok(url, Some(lab));
    var src := Source(LinkTok(url, Some(lab)));
    assert src == "<" + url + ("|" + lab);
    assert |src| == q + 1 + m;
    forall i | 0 <= i < |src| ensures t[i] == src[i] {
      if i == 0 {
      } else if i < q {
        assert src[i] == url[i - 1];
      } else if i == q {
      } else {
        assert src[i] == lab[i - q - 1];
      }
    }
    StartsWithChars(t, src);
    if q + 1 + m < |t| {
      assert t[|src|..][0] == t[q + 1 + m];
    }
  }

  // The mention alternatives.

  /** The user-mention alternative: `<@`, `U` or `W`, upper-case letters and digits,
      `>`. */
  function MatchUser(t: string): (r: Option<Token>)
    ensures r.Some? ==> r.value.UserTok? && |t| > 2 && t[0] == '<' && t[1] == '@'
  {
    if |t| > 2 && t[0] == '<' && t[1] == '@' && (t[2] == 'U' || t[2] == 'W') then
      var n := RunLen(t[3..], UpperAlnum);
      if n > 0 && 3 + n < |t| && t[3 + n] == '>' then
        Some(UserTok(t[2..3 + n]))
      else None
    else None
  }

  /** What the user alternative finds is a mention the text reads as. */
  lemma UserSound(t: string)
    ensures MatchUser(t).Some? ==> ReadsAs(t, MatchUser(t).value)
  {
    if |t| > 2 && t[0] == '<' && t[1] == '@' && (t[2] == 'U' || t[2] == 'W') {
      var n := RunLen(t[3..], UpperAlnum);
      if n > 0 && 3 + n < |t| && t[3 + n] == '>' {
        UserReads(t, n);
      }
    }
  }

  lemma UserReads(t: string, n: nat)
    requires |t| > 2 && t[0] == '<' && t[1] == '@' && (t[2] == 'U' || t[2] == 'W')
    requires n == RunLen(t[3..], UpperAlnum) && n > 0 && 3 + n < |t| && t[3 + n] == '>'
    ensures ReadsAs(t, UserTok(t[2..3 + n]))
  {
    RunAt(t, 3, UpperAlnum);
    var id := t[2..3 + n];
    assert id[1..] == t[3..3 + n];
    var src := Source(UserTok(id));
    assert src == "<@" + id + ">";
    forall i | 0 <= i < |src| ensures t[i] == src[i] {
      if 2 <= i < 3 + n {
        assert src[i] == id[i - 2];
      }
    }
    StartsWithChars(t, src);
  }

  /** The channel-mention alternative: `<#C`, upper-case letters and digits, `|`, a
      name without `>`, `>`. */
  function MatchChannel(t: string): (r: Option<Token>)
    ensures r.Some? ==> r.value.ChannelTok? && |t| > 2 && t[0] == '<' && t[1] == '#'
  {
    if |t| > 2 && t[0] == '<' && t[1] == '#' && t[2] == 'C' then
      var n := RunLen(t[3..], UpperAlnum);
      if n > 0 && 3 + n < |t| && t[3 + n] == '|' then
        var m := RunLen(t[4 + n..], LabelChar);
        if m > 0 && 4 + n + m < |t| && t[4 + n + m] == '>' then
          Some(ChannelTok(t[2..3 + n], t[4 + n..4 + n + m]))
        else None
      else None
    else None
  }

  /** What the channel alternative finds is a mention the text reads as. */
  lemma ChannelSound(t: string)
    ensures MatchChannel(t).Some? ==> ReadsAs(t, MatchChannel(t).value)
  {
    if |t| > 2 && t[0] == '<' && t[1] == '#' && t[2] == 'C' {
      var n := RunLen(t[3..], UpperAlnum);
      if n > 0 && 3 + n < |t| && t[3 + n] == '|' {
        var m := RunLen(t[4 + n..], LabelChar);
        if m > 0 && 4 + n + m < |t| && t[4 + n + m] == '>' {
          ChannelReads(t, n, m);
          MatchChannelOf(t, n, m);
        }
      }
    }
  }

  lemma ChannelReads(t: string, n: nat, m: nat)
    requires |t| > 2 && t[0] == '<' && t[1] == '#' && t[2] == 'C'
    requires n == RunLen(t[3..], UpperAlnum) && n > 0 && 3 + n < |t| && t[3 + n] == '|'
    requires m == RunLen(t[4 + n..], LabelChar) && m > 0 && 4 + n + m < |t| && t[4 + n + m] == '>'
    ensures ReadsAs(t, ChannelTok(t[2..3 + n], t[4 + n..4 + n + m]))
  {
    RunAt(t, 3, UpperAlnum);
    RunAt(t, 4 + n, LabelChar);
    var id := t[2..3 + n];
    var name := t[4 + n..4 + n + m];
    assert id[1..] == t[3..3 + n];
    ChannelSource(t, id, name);
  }

  /** The text of a channel mention whose parts sit at their places in `t`. */
  lemma ChannelSource(t: string, id: string, name: string)
    requires 4 + |id| + |name| <= |t| && |id| >= 1
    requires t[0] == '<' && t[1] == '#' && t[2 + |id|] == '|' && t[3 + |id| + |name|] == '>'
    requires id == t[2..2 + |id|] && name == t[3 + |id|..3 + |id| + |name|]
    ensures StartsWith(t, Source(ChannelTok(id, name)))
  {
    var src := Source(ChannelTok(id, name));
    var k := |id|;
    assert src == "<#" + id + "|" + name + ">";
    forall i | 0 <= i < |src| ensures t[i] == src[i] {
      if 2 <= i < 2 + k {
        assert src[i] == id[i - 2];
      } else if 3 + k <= i < 3 + k + |name| {
        assert src[i] == name[i - 3 - k];
      }
    }
    StartsWithChars(t, src);
  }

  /** The three broadcast alternatives. */
  function MatchBroadcast(t: string): (r: Option<Token>)
    ensures r.Some? ==> r.value.BroadcastTok? && |t| > 2 && t[0] == '<' && t[1] == '!'
  {
    if StartsWith(t, "<!everyone>") then
      CharOf(t, "<!everyone>", 0);
      CharOf(t, "<!everyone>", 1);
      Some(BroadcastTok("everyone"))
    else if StartsWith(t, "<!channel>") then
      CharOf(t, "<!channel>", 0);
      CharOf(t, "<!channel>", 1);
      Some(BroadcastTok("channel"))
    else if StartsWith(t, "<!here>") then
      CharOf(t, "<!here>", 0);
      CharOf(t, "<!here>", 1);
      Some(BroadcastTok("here"))
    else None
  }

  /** What the broadcast alternatives find is a broadcast the text reads as. */
  lemma BroadcastSound(t: string)
    ensures MatchBroadcast(t).Some? ==> ReadsAs(t, MatchBroadcast(t).value)
  {
    if StartsWith(t, "<!everyone>") {
      assert Source(BroadcastTok("everyone")) == "<!everyone>";
    } else if StartsWith(t, "<!channel>") {
      assert Source(BroadcastTok("channel")) == "<!channel>";
    } else if StartsWith(t, "<!here>") {
      assert Source(BroadcastTok("here")) == "<!here>";
    }
  }

  /** The combined expression at one position: its alternatives in order. */
  function MatchHere(t: string): (r: Option<Token>)
    ensures r.Some? ==> |t| >= 2 && t[0] == '<'
  {
    var link := MatchLink(t);
    if link.Some? then link
    else
      var user := MatchUser(t);
      if user.Some? then user
      else
        var channel := MatchChannel(t);
        if channel.Some? then channel
        else MatchBroadcast(t)
  }

  /** Whatever the combined expression finds at the start of `t` is a token the
      grammar allows, and `t` reads as it. */
  lemma MatchHereSound(t: string)
    ensures MatchHere(t).Some? ==> ReadsAs(t, MatchHere(t).value)
  {
    LinkSound(t);
    UserSound(t);
    ChannelSound(t);
    BroadcastSound(t);
  }

  // Completeness: every token the grammar allows is found, and read whole.

  /** The recogniser finds every token the grammar allows, and reads it whole: the
      converse of `MatchHere`'s guarantee. */
  lemma MatchHereComplete(t: string, tok: Token)
    requires ReadsAs(t, tok)
    ensures MatchHere(t) == Some(tok)
  {
    match tok {
      case LinkTok(url, lab) => LinkComplete(t, tok);
      case UserTok(id) => UserComplete(t, id);
      case ChannelTok(id, name) => ChannelComplete(t, id, name);
      case BroadcastTok(name) => BroadcastComplete(t, name);
    }
  }

  lemma BroadcastComplete(t: string, name: string)
    requires ReadsAs(t, BroadcastTok(name))
    ensures MatchHere(t) == Some(BroadcastTok(name))
  {
    var lit := Source(BroadcastTok(name));
    CharOf(t, lit, 1);
    CharOf(t, lit, 2);
    NotLink(t);
    if name == "everyone" {
      assert lit == "<!everyone>";
    } else if name == "channel" {
      assert lit == "<!channel>";
      NotPrefix(t, "<!everyone>", 2);
    } else {
      assert lit == "<!here>";
      NotPrefix(t, "<!everyone>", 2);
      NotPrefix(t, "<!channel>", 2);
    }
  }

  /** Text that differs from `lit` at position `i` does not start with `lit`. */
  lemma NotPrefix(t: string, lit: string, i: nat)
    requires i < |t| && i < |lit| && t[i] != lit[i]
    ensures !StartsWith(t, lit)
  {
    StartsWithChars(t, lit);
  }

  /** Only the link alternative matches text starting `<h`. */
  lemma NotLink(t: string)
    requires |t| >= 2 && t[1] != 'h'
    ensures MatchLink(t).None?
  {
    NotPrefix(t[1..], "https://", 0);
    NotPrefix(t[1..], "http://", 0);
  }

  lemma UserComplete(t: string, id: string)
    requires ReadsAs(t, UserTok(id))
    ensures MatchUser(t) == Some(UserTok(id)) && MatchLink(t).None?
  {
    var src := Source(UserTok(id));
    var n := |id| - 1;
    assert src == "<@" + id + ">";
    CharOf(t, src, 0);
    CharOf(t, src, 1);
    CharOf(t, src, 3 + n);
    PieceOf(t, src, 2, id);
    assert t[2] == id[0];
    assert t[3..3 + n] == id[1..];
    RunAtExact(t, 3, n, UpperAlnum);
    NotLink(t);
  }

  lemma ChannelComplete(t: string, id: string, name: string)
    requires ReadsAs(t, ChannelTok(id, name))
    ensures MatchChannel(t) == Some(ChannelTok(id, name))
    ensures MatchLink(t).None? && MatchUser(t).None?
  {
    ChannelRuns(t, id, name);
    ChannelFound(t, id, name);
    ChannelNotOther(t, id, name);
  }

  lemma ChannelFound(t: string, id: string, name: string)
    requires |t| > 2 && t[0] == '<' && t[1] == '#' && t[2] == 'C'
    requires var n, m := |id| - 1, |name|;
      n > 0 && 3 + n < |t| && t[3 + n] == '|' && RunLen(t[3..], UpperAlnum) == n &&
      m > 0 && 4 + n + m < |t| && t[4 + n + m] == '>' && RunLen(t[4 + n..], LabelChar) == m &&
      t[2..3 + n] == id && t[4 + n..4 + n + m] == name
    ensures MatchChannel(t) == Some(ChannelTok(id, name))
  {
    MatchChannelOf(t, |id| - 1, |name|);
  }

  /** The channel alternative, given the runs it scans for. */
  lemma MatchChannelOf(t: string, n: nat, m: nat)
    requires |t| > 2 && t[0] == '<' && t[1] == '#' && t[2] == 'C'
    requires n == RunLen(t[3..], UpperAlnum) && n > 0 && 3 + n < |t| && t[3 + n] == '|'
    requires m == RunLen(t[4 + n..], LabelChar) && m > 0 && 4 + n + m < |t| && t[4 + n + m] == '>'
    ensures MatchChannel(t) == Some(ChannelTok(t[2..3 + n], t[4 + n..4 + n + m]))
  {
  }

  lemma ChannelNotOther(t: string, id: string, name: string)
    requires ReadsAs(t, ChannelTok(id, name))
    ensures MatchLink(t).None? && MatchUser(t).None?
  {
    var src := Source(ChannelTok(id, name));
    CharOf(t, src, 1);
    NotLink(t);
  }

  /** The runs the channel alternative finds in the text a channel mention was read
      from. */
  lemma ChannelRuns(t: string, id: string, name: string)
    requires ReadsAs(t, ChannelTok(id, name))
    ensures |t| > 2 && t[0] == '<' && t[1] == '#' && t[2] == 'C'
    ensures var n, m := |id| - 1, |name|;
      n > 0 && 3 + n < |t| && t[3 + n] == '|' && RunLen(t[3..], UpperAlnum) == n &&
      m > 0 && 4 + n + m < |t| && t[4 + n + m] == '>' && RunLen(t[4 + n..], LabelChar) == m &&
      t[2..3 + n] == id && t[4 + n..4 + n + m] == name
  {
    var src := Source(ChannelTok(id, name));
    var n := |id| - 1;
    var m := |name|;
    assert src == "<#" + id + "|" + name + ">";
    CharOf(t, src, 0);
    CharOf(t, src, 1);
    CharOf(t, src, 3 + n);
    CharOf(t, src, 4 + n + m);
    PieceOf(t, src, 2, id);
    forall i | 0 <= i < m ensures src[4 + n + i] == name[i] {
    }
    PieceOf(t, src, 4 + n, name);
    assert t[2] == id[0];
    assert t[3..3 + n] == id[1..];
    RunAtExact(t, 3, n, UpperAlnum);
    RunAtExact(t, 4 + n, m, LabelChar);
  }

  lemma LinkComplete(t: string, tok: Token)
    requires tok.LinkTok? && ReadsAs(t, tok)
    ensures MatchLink(t) == Some(tok)
  {
    var q := |tok.url| + 1;
    var m := if tok.labelText.Some? then |tok.labelText.value| else 0;
    LinkRuns(t, tok);
    LinkMatchFrom(t, q, m);
    assert LinkAt(t, q, m) == tok;
  }

  /** The runs the link alternative finds in the text a link was read from. */
  lemma LinkRuns(t: string, tok: Token)
    requires tok.LinkTok? && ReadsAs(t, tok)
    ensures |t| >= 2 && t[0] == '<' && SchemeLen(t[1..]) > 0
    ensures var p, q := 1 + SchemeLen(t[1..]), |tok.url| + 1;
      p < q <= |t| && RunLen(t[p..], UrlChar) == q - p && t[1..q] == tok.url
    ensures var q, m := |tok.url| + 1, if tok.labelText.Some? then |tok.labelText.value| else 0;
      m == (if q < |t| && t[q] == '|' then RunLen(t[q + 1..], LabelChar) else 0) &&
      (tok.labelText.Some? ==> q + 1 + m <= |t| && t[q + 1..q + 1 + m] == tok.labelText.value)
  {
    LinkUrlRun(t, tok);
    LinkLabelRun(t, tok);
  }

  lemma LinkUrlRun(t: string, tok: Token)
    requires tok.LinkTok? && ReadsAs(t, tok)
    ensures |t| >= 2 && t[0] == '<' && SchemeLen(t[1..]) > 0
    ensures var p, q := 1 + SchemeLen(t[1..]), |tok.url| + 1;
      p < q <= |t| && RunLen(t[p..], UrlChar) == q - p && t[1..q] == tok.url
  {
    var url := tok.url;
    var q := |url| + 1;
    LinkUrlAt(t, tok);
    assert url == t[1..][..|url|];
    PrefixScheme(url, t[1..]);
    var p := 1 + SchemeLen(url);
    assert t[p..q] == url[SchemeLen(url)..];
    LinkUrlStop(t, tok);
    RunAtExact(t, p, q - p, UrlChar);
  }

  lemma LinkLabelRun(t: string, tok: Token)
    requires tok.LinkTok? && ReadsAs(t, tok)
    ensures var q, m := |tok.url| + 1, if tok.labelText.Some? then |tok.labelText.value| else 0;
      q <= |t| &&
      m == (if q < |t| && t[q] == '|' then RunLen(t[q + 1..], LabelChar) else 0) &&
      (tok.labelText.Some? ==> q + 1 + m <= |t| && t[q + 1..q + 1 + m] == tok.labelText.value)
  {
    var q := |tok.url| + 1;
    if tok.labelText.Some? {
      var m := |tok.labelText.value|;
      LinkLabelAt(t, tok);
      CharOf(t, Source(tok), q);
      RunAtExact(t, q + 1, m, LabelChar);
    } else {
      BareLinkEnd(t, tok);
      if q < |t| && t[q] == '|' {
        RunAtExact(t, q + 1, 0, LabelChar);
      }
    }
  }

  /** What the link alternative reads once its runs are known. */
  lemma LinkMatchFrom(t: string, q: nat, m: nat)
    requires |t| >= 2 && t[0] == '<' && SchemeLen(t[1..]) > 0
    requires 1 + SchemeLen(t[1..]) < q <= |t| && RunLen(t[1 + SchemeLen(t[1..])..], UrlChar) == q - 1 - SchemeLen(t[1..])
    requires m == if q < |t| && t[q] == '|' then RunLen(t[q + 1..], LabelChar) else 0
    ensures m > 0 ==> q + 1 + m <= |t|
    ensures MatchLink(t) == Some(LinkAt(t, q, m))
  {
    if m > 0 {
      RunAt(t, q + 1, LabelChar);
    }
  }

  /** Where a link's url sits in the text it was read from. */
  lemma LinkUrlAt(t: string, tok: Token)
    requires tok.LinkTok? && ReadsAs(t, tok)
    ensures |t| >= 2 && t[0] == '<' && 8 <= |tok.url| && |tok.url| + 1 <= |t|
    ensures t[1..|tok.url| + 1] == tok.url
  {
    var src := Source(tok);
    CharOf(t, src, 0);
    forall i | 0 <= i < |tok.url| ensures src[1 + i] == tok.url[i] {
    }
    PieceOf(t, src, 1, tok.url);
  }

  /** What follows a link's url is not a url character. */
  lemma LinkUrlStop(t: string, tok: Token)
    requires tok.LinkTok? && ReadsAs(t, tok)
    ensures |tok.url| + 1 == |t| || !UrlChar(t[|tok.url| + 1])
  {
    var src := Source(tok);
    var q := |tok.url| + 1;
    if q < |t| {
      if tok.labelText.Some? {
        CharOf(t, src, q);
      } else {
        assert |src| == q;
        assert t[q..][0] == t[q];
      }
    }
  }

  /** Where a link's label sits, and what follows it. */
  lemma LinkLabelAt(t: string, tok: Token)
    requires tok.LinkTok? && tok.labelText.Some? && ReadsAs(t, tok)
    ensures var q, m := |tok.url| + 1, |tok.labelText.value|;
      q + 1 + m <= |t| && t[q + 1..q + 1 + m] == tok.labelText.value &&
      AllOf(t[q + 1..q + 1 + m], LabelChar) && (q + 1 + m == |t| || t[q + 1 + m] == '>')
  {
    var src := Source(tok);
    var q := |tok.url| + 1;
    var lab := tok.labelText.value;
    assert src == "<" + tok.url + ("|" + lab);
    forall i | 0 <= i < |lab| ensures src[q + 1 + i] == lab[i] {
    }
    PieceOf(t, src, q + 1, lab);
    if q + 1 + |lab| < |t| {
      assert t[|src|..][0] == t[q + 1 + |lab|];
    }
  }

  lemma BareLinkEnd(t: string, tok: Token)
    requires tok.LinkTok? && tok.labelText.None? && ReadsAs(t, tok)
    ensures var q := |tok.url| + 1;
      q <= |t| && (q == |t| || t[q] != '|' || q + 1 == |t| || t[q + 1] == '>')
  {
    var src := Source(tok);
    var q := |tok.url| + 1;
    assert |src| == q;
    if q + 1 < |t| {
      assert t[q] == t[q..][0] && t[q + 1] == t[q..][1];
    }
  }
}

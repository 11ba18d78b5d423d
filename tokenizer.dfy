/** Message text to renderable segments (`parseMessageTextToElements`). The combined
    expression is applied repeatedly from where the previous match ended; text
    between matches becomes plain segments, and each match becomes a link, a
    user mention, a channel mention or a broadcast. */
module Tokenizer {
  import opened Wrappers
  import opened SlackTypes
  import opened Lookup
  import opened Markup

  /** A stretch of the text: plain text between matches, or one match. */
  datatype Lexeme = Gap(text: string) | Mark(token: Token)

  /** A renderable segment. */
  datatype Element =
    | Plain(text: string)
    | Link(url: string, text: string)
    | UserMention(text: string, userId: string)
    | ChannelMention(text: string)
    | SpecialMention(text: string)

  /** The text a lexeme covers. */
  function Raw(x: Lexeme): string {
    match x
    case Gap(s) => s
    case Mark(tok) => Source(tok)
  }

  function Flatten(xs: seq<Lexeme>): string {
    if xs == [] then "" else Raw(xs[0]) + Flatten(xs[1..])
  }

  lemma {:induction false} FlattenAppend(xs: seq<Lexeme>, ys: seq<Lexeme>)
    ensures Flatten(xs + ys) == Flatten(xs) + Flatten(ys)
  {
    if xs == [] {
      assert xs + ys == ys;
    } else {
      assert (xs + ys)[1..] == xs[1..] + ys;
      FlattenAppend(xs[1..], ys);
    }
  }

  /** The leftmost match at or after `from`, as the expression's `exec` finds it. */
  function NextMatch(text: string, from: nat): (r: Option<(nat, Token)>)
    requires from <= |text|
    ensures r.Some? ==> from <= r.value.0 < |text| && MatchHere(text[r.value.0..]) == Some(r.value.1)
    decreases |text| - from
  {
    if from == |text| then None
    else
      match MatchHere(text[from..])
      case Some(tok) => Some((from, tok))
      case None => NextMatch(text, from + 1)
  }

  /** The match found is the leftmost one: the expression matches nowhere between
      `from` and it, and nowhere at all from `from` on when nothing is found. */
  lemma {:induction false} NextMatchLeftmost(text: string, from: nat)
    requires from <= |text|
    ensures var r := NextMatch(text, from);
      r.Some? ==> forall j :: from <= j < r.value.0 ==> MatchHere(text[j..]).None?
    ensures NextMatch(text, from).None? ==> forall j :: from <= j < |text| ==> MatchHere(text[j..]).None?
    decreases |text| - from
  {
    if from < |text| && MatchHere(text[from..]).None? {
      NextMatchLeftmost(text, from + 1);
    }
  }

  /** Where a match found at `i` ends. */
  function MatchEnd(text: string, i: nat, tok: Token): (e: nat)
    requires i < |text| && MatchHere(text[i..]) == Some(tok)
    ensures i < e <= |text| && text[i..e] == Source(tok)
  {
    MatchHereSound(text[i..]);
    assert text[i..][..|Source(tok)|] == text[i..i + |Source(tok)|];
    i + |Source(tok)|
  }

  /** The text from `from` on, cut into plain stretches and matches. */
  function Lex(text: string, from: nat): seq<Lexeme>
    requires from <= |text|
    decreases |text| - from
  {
    var m := NextMatch(text, from);
    if m.None? then
      if from < |text| then [Gap(text[from..])] else []
    else
      var i := m.value.0;
      (if from < i then [Gap(text[from..i])] else []) + [Mark(m.value.1)] + Lex(text, MatchEnd(text, i, m.value.1))
  }

  /** The plain stretch before a match at `i`, if any. */
  function GapBefore(text: string, from: nat, i: nat): seq<Lexeme>
    requires from <= i <= |text|
  {
    if from < i then [Gap(text[from..i])] else []
  }

  /** One step of `Lex`: the stretch before the next match, the match, the rest. */
  lemma LexStep(text: string, from: nat, i: nat, tok: Token)
    requires from <= |text| && NextMatch(text, from) == Some((i, tok))
    ensures Lex(text, from) == GapBefore(text, from, i) + [Mark(tok)] + Lex(text, MatchEnd(text, i, tok))
  {
  }

  /** The last step of `Lex`: no match remains. */
  lemma LexDone(text: string, from: nat)
    requires from <= |text| && NextMatch(text, from).None?
    ensures Lex(text, from) == if from < |text| then [Gap(text[from..])] else []
  {
  }

  /** The stretches, read in order, give back the text exactly. */
  lemma {:induction false} LexTiles(text: string, from: nat)
    requires from <= |text|
    ensures Flatten(Lex(text, from)) == text[from..]
    decreases |text| - from
  {
    var m := NextMatch(text, from);
    if m.None? {
      LexDone(text, from);
      if from < |text| {
        FlattenSingle(Gap(text[from..]));
      }
    } else {
      var (i, tok) := m.value;
      var e := MatchEnd(text, i, tok);
      var gap := GapBefore(text, from, i);
      LexStep(text, from, i, tok);
      LexTiles(text, e);
      FlattenAppend(gap + [Mark(tok)], Lex(text, e));
      FlattenAppend(gap, [Mark(tok)]);
      FlattenSingle(Mark(tok));
      if from < i {
        FlattenSingle(Gap(text[from..i]));
      }
      SliceSplit(text, from, i, e);
    }
  }

  lemma FlattenSingle(x: Lexeme)
    ensures Flatten([x]) == Raw(x)
  {
    assert [x][1..] == [];
    assert Raw(x) + "" == Raw(x);
  }

  lemma SliceSplit(text: string, a: nat, b: nat, c: nat)
    requires a <= b <= c <= |text|
    ensures text[a..] == text[a..b] + text[b..c] + text[c..]
  {
  }

  /** Plain stretches are non-empty and never adjacent; every match is a token the
      grammar allows; nothing is produced from an empty remainder. */
  lemma {:induction false} LexShape(text: string, from: nat)
    requires from <= |text|
    ensures Lex(text, from) == [] <==> from == |text|
    ensures WellShaped(Lex(text, from))
    decreases |text| - from
  {
    var m := NextMatch(text, from);
    if m.None? {
      LexDone(text, from);
    } else {
      var (i, tok) := m.value;
      var e := MatchEnd(text, i, tok);
      LexStep(text, from, i, tok);
      LexShape(text, e);
      MatchHereSound(text[i..]);
      ShapeAfterMark(GapBefore(text, from, i), tok, Lex(text, e));
    }
  }

  /** Plain stretches are non-empty and never adjacent, and every match is a token
      the grammar allows. */
  predicate WellShaped(xs: seq<Lexeme>) {
    (forall k :: 0 <= k < |xs| && xs[k].Gap? ==> xs[k].text != "") &&
    (forall k :: 0 <= k < |xs| - 1 ==> !(xs[k].Gap? && xs[k + 1].Gap?)) &&
    (forall k :: 0 <= k < |xs| && xs[k].Mark? ==> ValidToken(xs[k].token))
  }

  lemma ShapeAfterMark(gap: seq<Lexeme>, tok: Token, rest: seq<Lexeme>)
    requires |gap| <= 1 && (gap != [] ==> gap[0].Gap? && gap[0].text != "")
    requires ValidToken(tok) && WellShaped(rest)
    ensures WellShaped(gap + [Mark(tok)] + rest)
  {
    var head := gap + [Mark(tok)];
    var xs := head + rest;
    forall k | 0 <= k < |xs| - 1 ensures !(xs[k].Gap? && xs[k + 1].Gap?) {
      if k + 1 < |head| {
        assert xs[k + 1] == Mark(tok);
      } else if k + 1 > |head| {
        assert xs[k] == rest[k - |head|] && xs[k + 1] == rest[k + 1 - |head|];
      } else {
        assert xs[k] == Mark(tok);
      }
    }
    forall k | 0 <= k < |xs| && xs[k].Mark? ensures ValidToken(xs[k].token) {
      if k >= |head| {
        assert xs[k] == rest[k - |head|];
      } else {
        assert xs[k] == Mark(tok);
      }
    }
    forall k | 0 <= k < |xs| && xs[k].Gap? ensures xs[k].text != "" {
      if k >= |head| {
        assert xs[k] == rest[k - |head|];
      } else if k < |gap| {
        assert xs[k] == gap[k];
      }
    }
  }

  /** The name a user is shown by: the real name when there is one. */
  function DisplayName(u: User): string {
    if u.realName != "" then u.realName else u.name
  }

  /** The segment a match becomes. A link shows its label, or its url when it has
      none; a user mention shows `@` and the user's name when the id is known, and
      the mention's own text otherwise. */
  function TokenElement(tok: Token, users: seq<User>): Element {
    match tok
    case LinkTok(url, lab) => Link(url, lab.GetOr(url))
    case UserTok(id) =>
      (match GetUserById(users, id)
       case Some(u) => UserMention("@" + DisplayName(u), id)
       case None => UserMention(Source(tok), id))
    case ChannelTok(_, name) => ChannelMention("#" + name)
    case BroadcastTok(name) => SpecialMention("@" + name)
  }

  function ToElement(x: Lexeme, users: seq<User>): Element {
    match x
    case Gap(s) => Plain(s)
    case Mark(tok) => TokenElement(tok, users)
  }

  function Elements(xs: seq<Lexeme>, users: seq<User>): (r: seq<Element>)
    ensures |r| == |xs|
  {
    if xs == [] then [] else [ToElement(xs[0], users)] + Elements(xs[1..], users)
  }

  lemma {:induction false} ElementsAppend(xs: seq<Lexeme>, ys: seq<Lexeme>, users: seq<User>)
    ensures Elements(xs + ys, users) == Elements(xs, users) + Elements(ys, users)
  {
    if xs == [] {
      assert xs + ys == ys;
    } else {
      assert (xs + ys)[1..] == xs[1..] + ys;
      ElementsAppend(xs[1..], ys, users);
    }
  }

  /** The segments of a message's text; the whole text as one plain segment when
      nothing was produced, which happens only for the empty text. */
  function Tokenize(text: string, users: seq<User>): (r: seq<Element>)
    ensures |r| >= 1
  {
    var xs := Lex(text, 0);
    if xs == [] then [Plain(text)] else Elements(xs, users)
  }

  /** Text in which no markup starts anywhere is one plain segment: itself. */
  lemma PlainText(text: string, users: seq<User>)
    requires forall j :: 0 <= j < |text| ==> MatchHere(text[j..]).None?
    ensures Tokenize(text, users) == [Plain(text)]
  {
    assert NextMatch(text, 0).None?;
    LexDone(text, 0);
    assert text[0..] == text;
  }

  /** No markup starts in `rest` when it does not start with `<` and contains no
      `<` at all. */
  lemma NoMarkupWithoutAngle(rest: string)
    requires '<' !in rest
    ensures forall j :: 0 <= j < |rest| ==> MatchHere(rest[j..]).None?
  {
    forall j | 0 <= j < |rest| ensures MatchHere(rest[j..]).None? {
      assert rest[j..][0] == rest[j];
    }
  }

  /** With no match starting anywhere from `from` on, the scan finds nothing. */
  lemma {:induction false} NoMatchFrom(text: string, from: nat)
    requires from <= |text|
    requires forall j :: from <= j < |text| ==> MatchHere(text[j..]).None?
    ensures NextMatch(text, from).None?
    decreases |text| - from
  {
    if from < |text| {
      NoMatchFrom(text, from + 1);
    }
  }

  /** A token followed by plain text in which no markup starts gives the token's
      segment and then that text, when anything follows. */
  lemma SingleToken(tok: Token, rest: string, users: seq<User>)
    requires ValidToken(tok) && Delimited(tok, rest)
    requires forall j :: 0 <= j < |rest| ==> MatchHere(rest[j..]).None?
    ensures Tokenize(Source(tok) + rest, users) ==
      [TokenElement(tok, users)] + (if rest == "" then [] else [Plain(rest)])
  {
    var tail := if rest == "" then [] else [Gap(rest)];
    SingleTokenLex(tok, rest);
    ElementsAppend([Mark(tok)], tail, users);
    assert Elements([Mark(tok)], users) == [TokenElement(tok, users)] + Elements([], users);
    if rest != "" {
      assert Elements(tail, users) == [Plain(rest)] + Elements([], users);
    }
  }

  lemma SingleTokenLex(tok: Token, rest: string)
    requires ValidToken(tok) && Delimited(tok, rest)
    requires forall j :: 0 <= j < |rest| ==> MatchHere(rest[j..]).None?
    ensures Lex(Source(tok) + rest, 0) == [Mark(tok)] + (if rest == "" then [] else [Gap(rest)])
  {
    TokenReadsAtStart(tok, rest);
    RestHasNoMatch(Source(tok), rest);
    LeadingToken(Source(tok) + rest, tok);
    assert (Source(tok) + rest)[|Source(tok)|..] == rest;
  }

  /** Text that starts with a token and has no markup after it. */
  lemma LeadingToken(text: string, tok: Token)
    requires ReadsAs(text, tok)
    requires forall j :: |Source(tok)| <= j < |text| ==> MatchHere(text[j..]).None?
    ensures var n := |Source(tok)|;
      Lex(text, 0) == [Mark(tok)] + (if n < |text| then [Gap(text[n..])] else [])
  {
    MatchAtStart(text, tok);
    LexStep(text, 0, 0, tok);
    NoMatchFrom(text, |Source(tok)|);
    LexDone(text, |Source(tok)|);
  }

  lemma TokenReadsAtStart(tok: Token, rest: string)
    requires ValidToken(tok) && Delimited(tok, rest)
    ensures ReadsAs(Source(tok) + rest, tok)
  {
    var text := Source(tok) + rest;
    assert text[..|Source(tok)|] == Source(tok);
    assert text[|Source(tok)|..] == rest;
  }

  lemma MatchAtStart(text: string, tok: Token)
    requires ReadsAs(text, tok)
    ensures NextMatch(text, 0) == Some((0, tok)) && MatchEnd(text, 0, tok) == |Source(tok)|
  {
    assert text[0..] == text;
    MatchHereComplete(text, tok);
  }

  lemma RestHasNoMatch(head: string, rest: string)
    requires forall j :: 0 <= j < |rest| ==> MatchHere(rest[j..]).None?
    ensures forall j :: |head| <= j < |head + rest| ==> MatchHere((head + rest)[j..]).None?
  {
    forall j | |head| <= j < |head + rest| ensures MatchHere((head + rest)[j..]).None? {
      assert (head + rest)[j..] == rest[j - |head|..];
    }
  }

  /** A labelled link keeps its closing `>` as a plain segment of its own: the link
      alternative stops before it. */
  lemma LinkLeavesClosingBracket(url: string, lab: string, users: seq<User>)
    requires ValidToken(LinkTok(url, Some(lab)))
    ensures Tokenize("<" + url + "|" + lab + ">", users) == [Link(url, lab), Plain(">")]
  {
    NoMarkupWithoutAngle(">");
    SingleToken(LinkTok(url, Some(lab)), ">", users);
    assert Source(LinkTok(url, Some(lab))) + ">" == "<" + url + "|" + lab + ">";
  }

  /** A mention of a known user shows `@` and the user's name and keeps the id; one
      of an unknown user shows the mention's own text. */
  lemma UserMentionShown(id: string, users: seq<User>)
    requires ValidToken(UserTok(id))
    ensures GetUserById(users, id).Some? ==>
      Tokenize("<@" + id + ">", users) == [UserMention("@" + DisplayName(GetUserById(users, id).value), id)]
    ensures GetUserById(users, id).None? ==>
      Tokenize("<@" + id + ">", users) == [UserMention("<@" + id + ">", id)]
  {
    SingleToken(UserTok(id), "", users);
    assert Source(UserTok(id)) + "" == "<@" + id + ">";
  }

  /** A channel mention shows `#` and the channel's name. */
  lemma ChannelMentionShown(id: string, name: string, users: seq<User>)
    requires ValidToken(ChannelTok(id, name))
    ensures Tokenize("<#" + id + "|" + name + ">", users) == [ChannelMention("#" + name)]
  {
    SingleToken(ChannelTok(id, name), "", users);
    assert Source(ChannelTok(id, name)) + "" == "<#" + id + "|" + name + ">";
  }

  /** A broadcast shows `@` and its name. */
  lemma BroadcastShown(name: string, users: seq<User>)
    requires ValidToken(BroadcastTok(name))
    ensures Tokenize("<!" + name + ">", users) == [SpecialMention("@" + name)]
  {
    SingleToken(BroadcastTok(name), "", users);
    assert Source(BroadcastTok(name)) + "" == "<!" + name + ">";
  }

  /** A link without a label shows its url, and its closing `>` stays plain text. */
  lemma BareLinkShown(url: string, users: seq<User>)
    requires ValidToken(LinkTok(url, None))
    ensures Tokenize("<" + url + ">", users) == [Link(url, url), Plain(">")]
  {
    NoMarkupWithoutAngle(">");
    SingleToken(LinkTok(url, None), ">", users);
    assert Source(LinkTok(url, None)) + ">" == "<" + url + ">";
  }

  /** `exec`: scans from `from` for the leftmost position where the expression
      matches. */
  method Exec(text: string, from: nat) returns (r: Option<(nat, Token)>)
    requires from <= |text|
    ensures r == NextMatch(text, from)
  {
    var i := from;
    while i < |text|
      invariant from <= i <= |text|
      invariant NextMatch(text, from) == NextMatch(text, i)
    {
      var m := MatchHere(text[i..]);
      if m.Some? {
        return Some((i, m.value));
      }
      i := i + 1;
    }
    return None;
  }

  /** The segments one step of the scan contributes. */
  lemma ElementsStep(text: string, from: nat, i: nat, tok: Token, users: seq<User>)
    requires from <= i <= |text|
    ensures Elements(GapBefore(text, from, i) + [Mark(tok)], users) ==
      (if from < i then [Plain(text[from..i])] else []) + [TokenElement(tok, users)]
  {
    var gap := GapBefore(text, from, i);
    ElementsAppend(gap, [Mark(tok)], users);
    assert Elements([Mark(tok)], users) == [TokenElement(tok, users)] + Elements([], users);
    if from < i {
      assert Elements(gap, users) == [Plain(text[from..i])] + Elements([], users);
    }
  }

  /** One step of the scan adds the segments of the stretch before the match and of
      the match. */
  lemma ScanStep(text: string, users: seq<User>, done: seq<Lexeme>, from: nat, i: nat, tok: Token)
    requires from <= i <= |text|
    ensures Elements(done + (GapBefore(text, from, i) + [Mark(tok)]), users) ==
      Elements(done, users) + (if from < i then [Plain(text[from..i])] else []) + [TokenElement(tok, users)]
  {
    ElementsStep(text, from, i, tok, users);
    ElementsAppend(done, GapBefore(text, from, i) + [Mark(tok)], users);
  }

  /** The end of the scan: the rest of the text, if any, is one plain segment. */
  lemma ScanDone(text: string, users: seq<User>, done: seq<Lexeme>, from: nat)
    requires from <= |text| && NextMatch(text, from).None?
    requires Lex(text, 0) == done + Lex(text, from)
    ensures from < |text| ==> Lex(text, 0) == done + [Gap(text[from..])]
    ensures from < |text| ==>
      Elements(done + [Gap(text[from..])], users) == Elements(done, users) + [Plain(text[from..])]
    ensures from == |text| ==> Lex(text, 0) == done
  {
    LexDone(text, from);
    if from < |text| {
      ElementsAppend(done, [Gap(text[from..])], users);
      assert Elements([Gap(text[from..])], users) == [Plain(text[from..])] + Elements([], users);
    } else {
      assert done + [] == done;
    }
  }

  lemma Regroup(whole: seq<Lexeme>, done: seq<Lexeme>, rest: seq<Lexeme>, step: seq<Lexeme>, after: seq<Lexeme>)
    requires whole == done + rest && rest == step + after
    ensures whole == (done + step) + after
  {
  }

  /** One match of the scan: the lexemes so far grow by the stretch before the match
      and the match, and the segments by theirs. */
  lemma ScanAdvance(text: string, users: seq<User>, done: seq<Lexeme>, from: nat, i: nat, tok: Token)
    requires from <= |text| && NextMatch(text, from) == Some((i, tok))
    requires Lex(text, 0) == done + Lex(text, from)
    ensures Lex(text, 0) == done + (GapBefore(text, from, i) + [Mark(tok)]) + Lex(text, MatchEnd(text, i, tok))
    ensures Elements(done + (GapBefore(text, from, i) + [Mark(tok)]), users) ==
      Elements(done, users) + (if from < i then [Plain(text[from..i])] else []) + [TokenElement(tok, users)]
  {
    LexStep(text, from, i, tok);
    Regroup(Lex(text, 0), done, Lex(text, from), GapBefore(text, from, i) + [Mark(tok)],
      Lex(text, MatchEnd(text, i, tok)));
    ScanStep(text, users, done, from, i, tok);
  }

  /** What the scan has produced when no match remains, and the fallback for an
      empty result, make up the segments of the whole text. */
  lemma ScanFinish(text: string, users: seq<User>, done: seq<Lexeme>, from: nat)
    requires from <= |text| && NextMatch(text, from).None?
    requires Lex(text, 0) == done + Lex(text, from)
    ensures var es := Elements(done, users) + if from < |text| then [Plain(text[from..])] else [];
      Tokenize(text, users) == if es == [] then [Plain(text)] else es
  {
    ScanDone(text, users, done, from);
    if from == |text| {
      assert Elements(done, users) + [] == Elements(done, users);
    }
  }

  /** `parseMessageTextToElements`. */
  method ParseMessageTextToElements(message: Message, users: seq<User>) returns (elements: seq<Element>)
    ensures elements == Tokenize(message.text, users)
  {
    var text := message.text;
    elements := [];
    var lastIndex := 0;
    ghost var done: seq<Lexeme> := [];
    while true
      invariant lastIndex <= |text|
      invariant Lex(text, 0) == done + Lex(text, lastIndex)
      invariant elements == Elements(done, users)
      decreases |text| - lastIndex
    {
      var next := Exec(text, lastIndex);
      if next.None? {
        break;
      }
      var index := next.value.0;
      var tok := next.value.1;
      ScanAdvance(text, users, done, lastIndex, index, tok);
      if index > lastIndex {
        elements := elements + [Plain(text[lastIndex..index])];
      }
      elements := elements + [TokenElement(tok, users)];
      done := done + (GapBefore(text, lastIndex, index) + [Mark(tok)]);
      lastIndex := MatchEnd(text, index, tok);
    }
    ScanFinish(text, users, done, lastIndex);
    if lastIndex < |text| {
      elements := elements + [Plain(text[lastIndex..])];
    }
    if |elements| == 0 {
      elements := elements + [Plain(text)];
    }
  }
}

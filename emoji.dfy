/** The emoji resolver: the fixed table of short codes the archive knows how to draw,
    and the lookup that falls back to the literal `:code:` token for any other code. */
module Emoji {

  /** What the table maps a code to: never empty and never starting with a colon,
      so it cannot be mistaken for the fallback token. */
  type Glyph = s: string | s != "" && s[0] != ':' witness "?"

  /** Short code (without colons) to the glyph drawn for it; the table is written
      in parts, in source order, so that each part's glyphs are checked on their own. */
  const EmojiMap: map<string, Glyph> :=
    Table1 + Table2 + Table3 + Table4 + Table5 + Table6 + Table7 + Table8 +
    Table9 + Table10 + Table11 + Table12 + Table13 + Table14 + Table15 + Table16 +
    Table17 + Table18 + Table19 + Table20 + Table21 + Table22 + Table23 + Table24

  const Table1: map<string, Glyph> := map[
    "+1" := "👍",
    "-1" := "👎",
    "heart" := "❤️",
    "joy" := "😂",
    "ok_hand" := "👌",
    "bangbang" := "‼️",
    "100" := "💯",
    "face_with_cowboy_hat" := "🤠",
    "fire" := "🔥",
    "eyes" := "👀"
  ]

  const Table2: map<string, Glyph> := map[
    "clap" := "👏",
    "raised_hands" := "🙌",
    "pray" := "🙏",
    "thinking_face" := "🤔",
    "smile" := "😄",
    "grin" := "😁",
    "laughing" := "😆",
    "wink" := "😉",
    "blush" := "😊",
    "yum" := "😋"
  ]

  const Table3: map<string, Glyph> := map[
    "relieved" := "😌",
    "heart_eyes" := "😍",
    "sunglasses" := "😎",
    "smirk" := "😏",
    "neutral_face" := "😐",
    "expressionless" := "😑",
    "unamused" := "😒",
    "sweat_smile" := "😅",
    "sweat" := "😓",
    "disappointed_relieved" := "😥"
  ]

  const Table4: map<string, Glyph> := map[
    "weary" := "😩",
    "pensive" := "😔",
    "confused" := "😕",
    "confounded" := "😖",
    "kissing_heart" := "😘",
    "kissing_closed_eyes" := "😚",
    "stuck_out_tongue_winking_eye" := "😜",
    "stuck_out_tongue_closed_eyes" := "😝",
    "disappointed" := "😞",
    "worried" := "😟"
  ]

  const Table5: map<string, Glyph> := map[
    "angry" := "😠",
    "rage" := "😡",
    "cry" := "😢",
    "persevere" := "😣",
    "triumph" := "😤",
    "frowning" := "😦",
    "anguished" := "😧",
    "fearful" := "😨",
    "cold_sweat" := "😰",
    "hushed" := "😯"
  ]

  const Table6: map<string, Glyph> := map[
    "flushed" := "😳",
    "dizzy_face" := "😵",
    "mask" := "😷",
    "sleeping" := "😴",
    "zzz" := "💤",
    "hankey" := "💩",
    "poop" := "💩",
    "shit" := "💩",
    "thumbsup" := "👍",
    "thumbsdown" := "👎"
  ]

  const Table7: map<string, Glyph> := map[
    "punch" := "👊",
    "fist" := "✊",
    "v" := "✌️",
    "wave" := "👋",
    "hand" := "✋",
    "open_hands" := "👐",
    "point_up" := "☝️",
    "point_down" := "👇",
    "point_left" := "👈",
    "point_right" := "👉"
  ]

  const Table8: map<string, Glyph> := map[
    "muscle" := "💪",
    "metal" := "🤘",
    "fu" := "🖕",
    "runner" := "🏃",
    "couple" := "👫",
    "family" := "👪",
    "two_men_holding_hands" := "👬",
    "two_women_holding_hands" := "👭",
    "dancer" := "💃",
    "dancers" := "👯"
  ]

  const Table9: map<string, Glyph> := map[
    "ok_woman" := "🙆",
    "no_good" := "🙅",
    "information_desk_person" := "💁",
    "raising_hand" := "🙋",
    "bride_with_veil" := "👰",
    "person_with_pouting_face" := "🙎",
    "person_frowning" := "🙍",
    "bow" := "🙇",
    "couplekiss" := "💏",
    "couple_with_heart" := "💑"
  ]

  const Table10: map<string, Glyph> := map[
    "massage" := "💆",
    "haircut" := "💇",
    "nail_care" := "💅",
    "boy" := "👦",
    "girl" := "👧",
    "woman" := "👩",
    "man" := "👨",
    "baby" := "👶",
    "older_woman" := "👵",
    "older_man" := "👴"
  ]

  const Table11: map<string, Glyph> := map[
    "man_with_gua_pi_mao" := "👲",
    "man_with_turban" := "👳",
    "construction_worker" := "👷",
    "cop" := "👮",
    "angel" := "👼",
    "princess" := "👸",
    "smiley_cat" := "😺",
    "smile_cat" := "😸",
    "heart_eyes_cat" := "😻",
    "kissing_cat" := "😽"
  ]

  const Table12: map<string, Glyph> := map[
    "smirk_cat" := "😼",
    "scream_cat" := "🙀",
    "crying_cat_face" := "😿",
    "joy_cat" := "😹",
    "pouting_cat" := "😾",
    "japanese_ogre" := "👹",
    "japanese_goblin" := "👺",
    "see_no_evil" := "🙈",
    "hear_no_evil" := "🙉",
    "speak_no_evil" := "🙊"
  ]

  const Table13: map<string, Glyph> := map[
    "skull" := "💀",
    "alien" := "👽",
    "sparkles" := "✨",
    "star" := "⭐",
    "star2" := "🌟",
    "dizzy" := "💫",
    "boom" := "💥",
    "collision" := "💥",
    "anger" := "💢",
    "sweat_drops" := "💦"
  ]

  const Table14: map<string, Glyph> := map[
    "droplet" := "💧",
    "dash" := "💨",
    "ocean" := "🌊",
    "cat" := "🐱",
    "dog" := "🐶",
    "mouse" := "🐭",
    "hamster" := "🐹",
    "rabbit" := "🐰",
    "wolf" := "🐺",
    "frog" := "🐸"
  ]

  const Table15: map<string, Glyph> := map[
    "tiger" := "🐯",
    "koala" := "🐨",
    "bear" := "🐻",
    "pig" := "🐷",
    "pig_nose" := "🐽",
    "cow" := "🐮",
    "boar" := "🐗",
    "monkey_face" := "🐵",
    "monkey" := "🐒",
    "horse" := "🐴"
  ]

  const Table16: map<string, Glyph> := map[
    "racehorse" := "🐎",
    "camel" := "🐫",
    "sheep" := "🐑",
    "elephant" := "🐘",
    "panda_face" := "🐼",
    "snake" := "🐍",
    "bird" := "🐦",
    "baby_chick" := "🐤",
    "hatched_chick" := "🐥",
    "hatching_chick" := "🐣"
  ]

  const Table17: map<string, Glyph> := map[
    "chicken" := "🐔",
    "penguin" := "🐧",
    "turtle" := "🐢",
    "bug" := "🐛",
    "honeybee" := "🐝",
    "ant" := "🐜",
    "beetle" := "🐞",
    "snail" := "🐌",
    "octopus" := "🐙",
    "tropical_fish" := "🐠"
  ]

  const Table18: map<string, Glyph> := map[
    "fish" := "🐟",
    "whale" := "🐳",
    "whale2" := "🐋",
    "dolphin" := "🐬",
    "cow2" := "🐄",
    "ram" := "🐏",
    "rat" := "🐀",
    "water_buffalo" := "🐃",
    "tiger2" := "🐅",
    "rabbit2" := "🐇"
  ]

  const Table19: map<string, Glyph> := map[
    "dragon" := "🐉",
    "goat" := "🐐",
    "rooster" := "🐓",
    "dog2" := "🐕",
    "pig2" := "🐖",
    "mouse2" := "🐁",
    "ox" := "🐂",
    "dragon_face" := "🐲",
    "blowfish" := "🐡",
    "crocodile" := "🐊"
  ]

  const Table20: map<string, Glyph> := map[
    "dromedary_camel" := "🐪",
    "leopard" := "🐆",
    "cat2" := "🐈",
    "poodle" := "🐩",
    "paw_prints" := "🐾",
    "bouquet" := "💐",
    "cherry_blossom" := "🌸",
    "tulip" := "🌷",
    "four_leaf_clover" := "🍀",
    "rose" := "🌹"
  ]

  const Table21: map<string, Glyph> := map[
    "sunflower" := "🌻",
    "hibiscus" := "🌺",
    "maple_leaf" := "🍁",
    "leaves" := "🍃",
    "fallen_leaf" := "🍂",
    "herb" := "🌿",
    "mushroom" := "🍄",
    "cactus" := "🌵",
    "palm_tree" := "🌴",
    "evergreen_tree" := "🌲"
  ]

  const Table22: map<string, Glyph> := map[
    "deciduous_tree" := "🌳",
    "chestnut" := "🌰",
    "seedling" := "🌱",
    "blossom" := "🌼",
    "ear_of_rice" := "🌾",
    "shell" := "🐚",
    "globe_with_meridians" := "🌐",
    "sun_with_face" := "🌞",
    "full_moon_with_face" := "🌝",
    "new_moon_with_face" := "🌚"
  ]

  const Table23: map<string, Glyph> := map[
    "new_moon" := "🌑",
    "waxing_crescent_moon" := "🌒",
    "first_quarter_moon" := "🌓",
    "waxing_gibbous_moon" := "🌔",
    "full_moon" := "🌕",
    "waning_gibbous_moon" := "🌖",
    "last_quarter_moon" := "🌗",
    "waning_crescent_moon" := "🌘",
    "last_quarter_moon_with_face" := "🌜",
    "first_quarter_moon_with_face" := "🌛"
  ]

  const Table24: map<string, Glyph> := map[
    "moon" := "🌔",
    "earth_africa" := "🌍",
    "earth_americas" := "🌎",
    "earth_asia" := "🌏",
    "volcano" := "🌋",
    "milky_way" := "🌌",
    "partly_sunny" := "⛅",
    "octocat" := "🐙",
    "squirrel" := "🐿️"
  ]

  /** The lookup over a table of glyphs: the glyph for `name`, or the literal token
      `:name:` when the table has none. The two cannot be confused, since no glyph
      starts with a colon. */
  function Resolve(table: map<string, Glyph>, name: string): (r: string)
    ensures name in table ==> r == table[name]
    ensures name !in table ==> r == ":" + name + ":"
    ensures r != "" && (r[0] == ':' <==> name !in table)
  {
    var glyph := if name in table then table[name] else "";
    if glyph != "" then glyph else ":" + name + ":"
  }

  /** `getEmojiFromName`: the lookup over the fixed table. */
  function GetEmojiFromName(name: string): string {
    Resolve(EmojiMap, name)
  }
}

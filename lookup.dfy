/** Lookups of channels and users by key: each returns the first record that
    matches, as `Array.prototype.find` does, or nothing. */
module Lookup {
  import opened Wrappers
  import opened SlackTypes

  /** Index of the first element satisfying `p`, if any. */
  function FindIndex<T>(s: seq<T>, p: T -> bool): (r: Option<nat>)
    ensures r.Some? ==> r.value < |s| && p(s[r.value])
    ensures r.Some? ==> forall j :: 0 <= j < r.value ==> !p(s[j])
    ensures r.None? ==> forall j :: 0 <= j < |s| ==> !p(s[j])
  {
    if s == [] then None
    else if p(s[0]) then Some(0)
    else match FindIndex(s[1..], p)
      case Some(i) => Some(i + 1)
      case None => None
  }

  /** The first element satisfying `p`, if any. */
  function Find<T>(s: seq<T>, p: T -> bool): (r: Option<T>)
    ensures r.None? <==> forall j :: 0 <= j < |s| ==> !p(s[j])
    ensures r.Some? ==> exists i :: 0 <= i < |s| && s[i] == r.value && p(s[i]) && forall j :: 0 <= j < i ==> !p(s[j])
  {
    match FindIndex(s, p)
    case Some(i) => Some(s[i])
    case None => None
  }

  /** The first user whose id is `userId`. */
  function GetUserById(users: seq<User>, userId: string): (r: Option<User>)
    ensures r.None? <==> forall j :: 0 <= j < |users| ==> users[j].id != userId
    ensures r.Some? ==> exists i :: 0 <= i < |users| && users[i] == r.value && r.value.id == userId && forall j :: 0 <= j < i ==> users[j].id != userId
  {
    Find(users, (u: User) => u.id == userId)
  }

  /** The first channel whose id is `channelId`. */
  function GetChannelById(channels: seq<Channel>, channelId: string): (r: Option<Channel>)
    ensures r.None? <==> forall j :: 0 <= j < |channels| ==> channels[j].id != channelId
    ensures r.Some? ==> exists i :: 0 <= i < |channels| && channels[i] == r.value && r.value.id == channelId && forall j :: 0 <= j < i ==> channels[j].id != channelId
  {
    Find(channels, (c: Channel) => c.id == channelId)
  }

  /** The first channel whose name is `channelName`. */
  function GetChannelByName(channels: seq<Channel>, channelName: string): (r: Option<Channel>)
    ensures r.None? <==> forall j :: 0 <= j < |channels| ==> channels[j].name != channelName
    ensures r.Some? ==> exists i :: 0 <= i < |channels| && channels[i] == r.value && r.value.name == channelName && forall j :: 0 <= j < i ==> channels[j].name != channelName
  {
    Find(channels, (c: Channel) => c.name == channelName)
  }
}

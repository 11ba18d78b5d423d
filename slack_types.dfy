/** The records of a workspace export as the parser sees them. Channels and users
    are read-only values; a message is an object, because thread reconstruction
    writes its reply fields in place and later readers of the same export see them. */
module SlackTypes {
  import opened Wrappers

  /** A channel record, reduced to the two fields the parser reads. */
  datatype Channel = Channel(id: string, name: string)

  /** A user record. `realName` is "" when the export has none: the parser only ever
      asks whether it is truthy, and an absent and an empty name are both falsy. */
  datatype User = User(id: string, name: string, realName: string)

  /** One entry of a thread parent's `replies` list. */
  datatype ReplySummary = ReplySummary(user: string, ts: string)

  /** A message record. The fields the parser never writes are constants; `replies`,
      `replyCount` and `threadReplies` are the three it assigns to thread parents
      (None where the record has no such key). */
  class Message {
    const ts: string
    const user: Option<string>
    const text: string
    const threadTs: Option<string>
    var replies: Option<seq<ReplySummary>>
    var replyCount: Option<int>
    var threadReplies: Option<seq<Message>>

    /** A message as it comes out of an export file; an export may already carry
        `replies` and `reply_count` for a thread parent, never `thread_replies`. */
    constructor (ts: string, user: Option<string>, text: string, threadTs: Option<string>,
                 replies: Option<seq<ReplySummary>>, replyCount: Option<int>)
      ensures this.ts == ts && this.user == user && this.text == text && this.threadTs == threadTs
      ensures this.replies == replies && this.replyCount == replyCount && threadReplies == None
    {
      this.ts := ts;
      this.user := user;
      this.text := text;
      this.threadTs := threadTs;
      this.replies := replies;
      this.replyCount := replyCount;
      this.threadReplies := None;
    }
  }
}

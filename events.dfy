/**
 * The stored event record shared by the ingester, the IRC importer and the
 * renderers: one element of a day file's JSON array.
 */
module Events {
  import opened Common

  /** `content['m.relates_to']`: the relation type and the event it points at. */
  datatype Relation = Relation(relType: Option<string>, eventId: Option<string>)

  /**
   * An event's `content` object. `Undefined` stands for a missing object,
   * which is what a replacement without `m.new_content` installs.
   * `msgtype` absent marks a message deleted after it was stored.
   */
  datatype Content =
    | Undefined
    | Content(
        body: string,
        msgtype: Option<string>,
        format: Option<string>,
        formattedBody: Option<string>,
        relatesTo: Option<Relation>,
        newContent: Content,
        isIrcNotice: bool)

  /**
   * `{content, ts, senderName, senderId, id}`; events imported from IRC logs
   * carry no `id`.
   */
  datatype Event = Event(id: Option<string>, ts: int, senderName: string, senderId: string, content: Content)

  const TextType: string := "m.text"
  const EmoteType: string := "m.emote"

  /** `msgtype === 'm.text' || msgtype === 'm.emote'`: the two kinds of message that are archived. */
  predicate IsTextOrEmote(msgtype: Option<string>) {
    msgtype == Some(TextType) || msgtype == Some(EmoteType)
  }

  /** A content object built from a message body alone. */
  function PlainContent(body: string, msgtype: string, isIrcNotice: bool): Content {
    Content(body, Some(msgtype), None, None, None, Undefined, isIrcNotice)
  }
}

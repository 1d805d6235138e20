/**
 * The shapes of the Matrix Client-Server API (r0) responses that the
 * ingester reads: room events as returned under the filter
 * `{"types":["m.room.message","m.room.member"]}` and one page of
 * `GET /rooms/{roomId}/messages`.
 */
module Protocol {
  import opened Common
  import opened Events

  /** The `content` of an `m.room.member` state event. */
  datatype MemberContent = MemberContent(membership: Option<string>, displayname: Option<string>)

  /**
   * A room event, told apart by its `type`. Every event has an
   * `event_id`; `Other` is any type the filter was not meant to let through.
   */
  datatype RoomEvent =
    | Message(eventId: string, sender: string, originServerTs: int, content: Content)
    | Member(eventId: string, stateKey: string, memberContent: Option<MemberContent>)
    | Other(eventId: string, eventType: string)

  /** `m.content?.displayname`, absent when there is no content. */
  function DisplaynameOf(c: Option<MemberContent>): Option<string> {
    if c.Some? then c.value.displayname else None
  }

  /** `event.type === 'm.room.member' && event.content?.membership === 'join'`. */
  predicate IsJoin(e: RoomEvent) {
    e.Member? && e.memberContent.Some? && e.memberContent.value.membership == Some("join")
  }

  /** One response of `/messages`: its `start` and `end` tokens and its `chunk`. */
  datatype Page = Page(start: Option<string>, end: Option<string>, chunk: seq<RoomEvent>)
}

/** The records the relay keeps in memory (src/types.ts). */
module Types {
  datatype Option<T> = None | Some(value: T) {
    function GetOr(default: T): T {
      match this
      case Some(v) => v
      case None => default
    }
  }

  newtype byte = x: int | 0 <= x < 256

  /** A serialized message as it goes on the wire or into a backlog. */
  type Frame = seq<byte>

  /** Identity of one live WebSocket (an ActiveWebsocket object). */
  type ConnId = nat

  /** JavaScript truthiness of an optional string: present and non-empty. */
  predicate Truthy(s: Option<string>) {
    s.Some? && s.value != ""
  }

  /** A chat document as stored and as delivered by the change feed. */
  datatype StoredMessage = StoredMessage(userId: string, msg: string, roomId: Option<string>, ts: int)

  /** ChatMessage: the stored fields plus the profile fields filled in at delivery time. */
  datatype ChatMessage = ChatMessage(
    userId: string, msg: string, roomId: Option<string>, ts: int,
    displayName: Option<string>, imageUrl: Option<string>, bio: Option<string>)

  /** ConnectedUserObj: profile snapshot plus connection and rate-limit state. */
  datatype UserObj = UserObj(
    displayName: Option<string>, profilePicture: Option<string>, bio: Option<string>,
    roomId: Option<string>, connectedAtTs: Option<int>, client: Option<ConnId>,
    bannedUntilTS: Option<int>, rateLimitLeft: Option<int>)

  /** The fields of an ActiveWebsocket the relay uses: liveness, room-list links, owner. */
  datatype Conn = Conn(isAlive: bool, prev: Option<ConnId>, next: Option<ConnId>, userId: string)

  /** What the relay does to sockets, recorded instead of performed. */
  datatype Event =
    | Send(conn: ConnId, frame: Frame)
    | SendBacklog(conn: ConnId, slots: seq<Option<Frame>>, head: nat)
    | Ping(conn: ConnId)
    | CloseSocket(conn: ConnId)
}

/** Serialization and framing of chat messages (compressMessage in src/utils.ts and the
    change-event handler's room selection, enrichment and framing in src/server.ts). */
module Framing {
  import opened Types
  import opened Constants

  /** The two library calls the framing relies on, left uninterpreted:
      serialize is JSON.stringify followed by UTF-8 encoding, deflate is zlib.deflateSync. */
  datatype Codec = Codec(serialize: ChatMessage -> seq<byte>, deflate: seq<byte> -> seq<byte>)

  /** How a receiver reads a frame: the payload before the trailing metadata byte, which is
      0 for raw UTF-8 JSON and 1 for deflated JSON. */
  datatype Payload = Raw(json: seq<byte>) | Deflated(data: seq<byte>) | Malformed

  function Unframe(f: Frame): (p: Payload)
    ensures f == [] ==> p.Malformed?
    ensures p.Raw? ==> f == p.json + [0]
    ensures p.Deflated? ==> f == p.data + [1]
  {
    if f == [] then Malformed
    else if f[|f| - 1] == 0 then Raw(f[..|f| - 1])
    else if f[|f| - 1] == 1 then Deflated(f[..|f| - 1])
    else Malformed
  }

  /** Appending a metadata byte and reading it back recovers the payload and the flag. */
  lemma UnframeAppended(payload: seq<byte>, flag: byte)
    ensures flag == 0 ==> Unframe(payload + [flag]) == Raw(payload)
    ensures flag == 1 ==> Unframe(payload + [flag]) == Deflated(payload)
    ensures flag > 1 ==> Unframe(payload + [flag]) == Malformed
  {
    assert (payload + [flag])[..|payload|] == payload;
  }

  /** compressMessage: deflate the serialized message and append the byte 1. */
  function CompressMessage(codec: Codec, msg: ChatMessage): (f: Frame)
    ensures |f| == |codec.deflate(codec.serialize(msg))| + 1
    ensures f[|f| - 1] == 1
    ensures Unframe(f) == Deflated(codec.deflate(codec.serialize(msg)))
  {
    var body := codec.deflate(codec.serialize(msg));
    UnframeAppended(body, 1);
    body + [1]
  }

  /** The uncompressed branch of the change-event handler: the serialized message and the byte 0. */
  function RawFrame(codec: Codec, msg: ChatMessage): (f: Frame)
    ensures |f| == |codec.serialize(msg)| + 1
    ensures f[|f| - 1] == 0
    ensures Unframe(f) == Raw(codec.serialize(msg))
  {
    var body := codec.serialize(msg);
    UnframeAppended(body, 0);
    body + [0]
  }

  /** The frame fanned out for a message, given the member count of its room. */
  function BuildFrame(codec: Codec, msg: ChatMessage, userCount: int): (f: Frame)
    ensures |f| >= 1
    ensures f[|f| - 1] == 1 <==> userCount > COMPRESSION_MIN_USER_THRESHOLD
    ensures f[|f| - 1] == 0 <==> userCount <= COMPRESSION_MIN_USER_THRESHOLD
    ensures userCount > COMPRESSION_MIN_USER_THRESHOLD ==> Unframe(f) == Deflated(codec.deflate(codec.serialize(msg)))
    ensures userCount <= COMPRESSION_MIN_USER_THRESHOLD ==> Unframe(f) == Raw(codec.serialize(msg))
  {
    if userCount > COMPRESSION_MIN_USER_THRESHOLD then CompressMessage(codec, msg) else RawFrame(codec, msg)
  }

  /** The room an insert event is delivered to: its roomId when that is truthy, else the global room. */
  function TargetRoom(roomId: Option<string>): (key: string)
    ensures key != ""
    ensures Truthy(roomId) ==> key == roomId.value
    ensures !Truthy(roomId) ==> key == GLOBAL_SERVER_NAME
  {
    if Truthy(roomId) then roomId.value else GLOBAL_SERVER_NAME
  }

  /** The persisted form of a chat message: the enrichment fields are never stored. */
  function Persisted(m: ChatMessage): StoredMessage {
    StoredMessage(m.userId, m.msg, m.roomId, m.ts)
  }

  /** The message built for delivery: the event's own fields, and the poster's profile
      fields when the poster is a known user. */
  function Enrich(doc: StoredMessage, user: Option<UserObj>): (m: ChatMessage)
    ensures Persisted(m) == doc
    ensures user.None? ==> m.displayName.None? && m.imageUrl.None? && m.bio.None?
    ensures user.Some? ==> m.displayName == user.value.displayName
    ensures user.Some? ==> m.imageUrl == user.value.profilePicture
    ensures user.Some? ==> m.bio == user.value.bio
  {
    match user
    case None => ChatMessage(doc.userId, doc.msg, doc.roomId, doc.ts, None, None, None)
    case Some(u) => ChatMessage(doc.userId, doc.msg, doc.roomId, doc.ts, u.displayName, u.profilePicture, u.bio)
  }

  /** The frames getRoomMessages pushes for a room's stored history: one compressed frame per
      message whose poster is known, in the order the store returned them. */
  function BacklogFrames(codec: Codec, msgs: seq<StoredMessage>, users: map<string, UserObj>): (fs: seq<Frame>)
    ensures |fs| <= |msgs|
    ensures forall i :: 0 <= i < |fs| ==> Unframe(fs[i]).Deflated?
    decreases |msgs|
  {
    if msgs == [] then []
    else
      var init := BacklogFrames(codec, msgs[..|msgs| - 1], users);
      var m := msgs[|msgs| - 1];
      if m.userId in users then init + [CompressMessage(codec, Enrich(m, Some(users[m.userId])))] else init
  }

  /** The stored messages whose posters are known, in store order. */
  function KnownPosters(msgs: seq<StoredMessage>, users: map<string, UserObj>): (ks: seq<StoredMessage>)
    ensures |ks| <= |msgs|
    ensures forall i :: 0 <= i < |ks| ==> ks[i] in msgs && ks[i].userId in users
    ensures forall m :: m in msgs && m.userId in users ==> m in ks
  {
    if msgs == [] then []
    else
      var init := KnownPosters(msgs[..|msgs| - 1], users);
      var m := msgs[|msgs| - 1];
      assert forall x :: x in msgs ==> x in msgs[..|msgs| - 1] || x == m;
      if m.userId in users then init + [m] else init
  }

  /** The backlog frames are exactly the compressed, enriched known-poster messages, in order. */
  lemma {:induction false} BacklogFramesAreKnownPosters(codec: Codec, msgs: seq<StoredMessage>, users: map<string, UserObj>)
    ensures var ks := KnownPosters(msgs, users);
      |BacklogFrames(codec, msgs, users)| == |ks| &&
      forall i :: 0 <= i < |ks| ==>
        BacklogFrames(codec, msgs, users)[i] == CompressMessage(codec, Enrich(ks[i], Some(users[ks[i].userId])))
    decreases |msgs|
  {
    if msgs != [] {
      BacklogFramesAreKnownPosters(codec, msgs[..|msgs| - 1], users);
    }
  }
}

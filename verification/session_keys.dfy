/** `SessionKeys`: the traffic keys of one connection and the four views of
    them that the record layer asks for. */
module SessionKeys {
  import opened Common

  datatype SessionKeys = SessionKeys(
    clientWriteKey: Bytes,
    serverWriteKey: Bytes,
    clientWriteIv: Bytes,
    serverWriteIv: Bytes,
    clientMacKey: Option<Bytes>,
    serverMacKey: Option<Bytes>)

  /** One direction's key, iv and (for CBC suites) MAC key. */
  datatype KeySet = KeySet(key: Bytes, iv: Bytes, macKey: Option<Bytes>)

  /** The constructor with the MAC keys left at their default. */
  function WithoutMacKeys(clientWriteKey: Bytes, serverWriteKey: Bytes,
                          clientWriteIv: Bytes, serverWriteIv: Bytes): (r: SessionKeys)
    ensures r.clientMacKey == None && r.serverMacKey == None
    ensures r.clientWriteKey == clientWriteKey && r.serverWriteKey == serverWriteKey
    ensures r.clientWriteIv == clientWriteIv && r.serverWriteIv == serverWriteIv
  {
    SessionKeys(clientWriteKey, serverWriteKey, clientWriteIv, serverWriteIv, None, None)
  }

  /** `clientKeys`: what the client writes with. */
  function ClientKeys(k: SessionKeys): (r: KeySet)
    ensures r.key == k.clientWriteKey && r.iv == k.clientWriteIv && r.macKey == k.clientMacKey
  {
    KeySet(k.clientWriteKey, k.clientWriteIv, k.clientMacKey)
  }

  /** `serverKeys`: what the server writes with. */
  function ServerKeys(k: SessionKeys): (r: KeySet)
    ensures r.key == k.serverWriteKey && r.iv == k.serverWriteIv && r.macKey == k.serverMacKey
  {
    KeySet(k.serverWriteKey, k.serverWriteIv, k.serverMacKey)
  }

  /** `writeKeys`: the server's view of what it writes with. */
  function WriteKeys(k: SessionKeys): (r: KeySet)
    ensures r == ServerKeys(k)
  {
    KeySet(k.serverWriteKey, k.serverWriteIv, k.serverMacKey)
  }

  /** `readKeys`: the server's view of what it reads with — the client's keys. */
  function ReadKeys(k: SessionKeys): (r: KeySet)
    ensures r == ClientKeys(k)
  {
    KeySet(k.clientWriteKey, k.clientWriteIv, k.clientMacKey)
  }

  /** The record assembled from its two directions. */
  function FromDirections(client: KeySet, server: KeySet): (r: SessionKeys)
  {
    SessionKeys(client.key, server.key, client.iv, server.iv, client.macKey, server.macKey)
  }

  /** The two directional views lose nothing: they determine the record, and
      any pair of directions is the view of the record built from it. */
  lemma DirectionsDetermineKeys(k: SessionKeys, client: KeySet, server: KeySet)
    ensures FromDirections(ClientKeys(k), ServerKeys(k)) == k
    ensures ClientKeys(FromDirections(client, server)) == client
    ensures ServerKeys(FromDirections(client, server)) == server
  {
  }

  /** What the server reads is what the client writes, and vice versa. */
  lemma ServerViewSwapsDirections(k: SessionKeys)
    ensures ReadKeys(k) == ClientKeys(k) && WriteKeys(k) == ServerKeys(k)
    ensures ReadKeys(k) == WriteKeys(k) <==> ClientKeys(k) == ServerKeys(k)
  {
  }
}

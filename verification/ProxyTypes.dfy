/** The records of the caching proxy. */
module ProxyTypes {
  import opened Bytes

  const MAX_DATA_SIZE := 1500
  const INITIAL_BUFFER := 200

  datatype NodeStatus = InUse | Idle | Reading | Writing

  datatype FdType = Dummy | Listen | Client | Server

  /** What the proxy keeps of a request and of its response's header. */
  datatype HttpInfo = HttpInfo(host: string, path: string, date: string, complete: bool)

  const NO_INFO := HttpInfo("", "", "", false)

  /** What calloc gives. */
  function Zeros(n: nat): seq<byte> {
    seq(n, _ => 0)
  }

  /** A buffer that serves as request buffer, response buffer and cached document; its length is buffer_size. */
  class CacheNode {
    var prev: CacheNode?
    var next: CacheNode?
    var buffer: seq<byte>
    var status: NodeStatus
    var info: HttpInfo

    // what a server has sent into the buffer, whether it has closed the connection after that,
    // and the client that the node was made for
    ghost var response: seq<byte>
    ghost var closed: bool
    ghost var owner: FdNode?

    constructor (prev: CacheNode?, next: CacheNode?, bufferSize: nat)
      ensures this.prev == prev && this.next == next && buffer == Zeros(bufferSize)
      ensures status == Idle && info == NO_INFO && response == [] && !closed && owner == null
    {
      this.prev, this.next, this.buffer := prev, next, Zeros(bufferSize);
      status, info, response, closed, owner := Idle, NO_INFO, [], false, null;
    }
  }

  /** The URL that a node is about. */
  function Key(info: HttpInfo): (string, string) {
    (info.host, info.path)
  }

  const NO_URL := ("", "")

  /** A socket that select watches; proxied links a client and the server that works for it. */
  class FdNode {
    var prev: FdNode?
    var next: FdNode?
    var proxied: FdNode?
    const fd: int
    const kind: FdType
    var status: NodeStatus
    var cacheNode: CacheNode?
    var backup: CacheNode?
    var offset: nat
    var flag: int

    // the URL that a client asked for, and what has been written to it
    ghost var asked: (string, string)
    ghost var output: seq<byte>

    constructor (prev: FdNode?, next: FdNode?, fd: int, kind: FdType, status: NodeStatus, cacheNode: CacheNode?)
      ensures this.prev == prev && this.next == next && this.fd == fd && this.kind == kind && this.status == status
      ensures this.cacheNode == cacheNode && proxied == null && backup == null && offset == 0 && flag == 0
      ensures asked == NO_URL && output == []
    {
      this.prev, this.next, this.fd, this.kind, this.status := prev, next, fd, kind, status;
      this.cacheNode, this.proxied, this.backup, this.offset, this.flag := cacheNode, null, null, 0, 0;
      asked, output := NO_URL, [];
    }
  }
}

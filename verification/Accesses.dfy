/** The calls that the store makes on its in-memory adapter, each one critical section of a.mu. Whatever
    interleaves in the store, the adapter sees one sequence of them. */
module Accesses {
  import opened Wrappers
  import opened Errors
  import opened Digests
  import opened Keys
  import opened Memory

  // One adapter call with its arguments. Time and body are what the call finds when it runs.
  datatype Access =
    | PutAccess(key: string, body: Body, opts: PutOptions, now: int)
    | GetAccess(key: string)
    | HeadAccess(key: string)
    | DeleteAccess(key: string, strict: bool)
    | CopyAccess(source: string, target: string, copyOpts: CopyOptions, now: int)
    | ListAccess(prefix: string, max: int, token: string)
    | InitiateAccess(key: string, opts: PutOptions, now: int)
    | PartAccess(id: string, number: int, body: Body)
    | PartsAccess(id: string)
    | CompleteAccess(id: string, parts: seq<PartETag>, now: int)
    | AbortAccess(id: string)
    | CloseAccess

  // What a call returns.
  datatype Answer =
    | NoAnswer
    | InfoAnswer(info: ObjectInfo)
    | BodyAnswer(content: seq<byte>, info: ObjectInfo)
    | PresenceAnswer(present: bool)
    | PageAnswer(page: ListPage)
    | IdAnswer(id: string)
    | PartAnswer(part: PartETag)
    | PartsAnswer(parts: seq<PartETag>)

  type Reply = Result<Answer, GoError>

  function Perform(lib: Library, m: State, a: Access): State {
    match a
    case PutAccess(key, body, opts, now) => PutObject(lib.digests, m, key, body, opts, now).0
    case DeleteAccess(key, strict) => DeleteObject(m, key, strict).0
    case CopyAccess(source, target, opts, now) => CopyObject(lib.digests, m, source, target, opts, now).0
    case InitiateAccess(key, opts, now) => InitiateMultipart(m, key, opts, now).0
    case PartAccess(id, number, body) => Memory.UploadPart(lib.digests, m, id, number, body).0
    case CompleteAccess(id, parts, now) => CompleteMultipart(lib.digests, m, id, parts, now).0
    case AbortAccess(id) => AbortMultipart(m, id)
    case CloseAccess => Memory.Close(m)
    case _ => m
  }

  function Described(r: Result<ObjectInfo, GoError>): Reply {
    if r.Ok? then Ok(InfoAnswer(r.value)) else Err(r.error)
  }

  function ErrorReply(e: Option<GoError>): Reply {
    if e.Some? then Err(e.value) else Ok(NoAnswer)
  }

  function ReplyTo(lib: Library, m: State, a: Access): Reply {
    match a
    case PutAccess(key, body, opts, now) => Described(PutObject(lib.digests, m, key, body, opts, now).2)
    case GetAccess(key) => (match GetObject(m, key) case Ok((content, info)) => Ok(BodyAnswer(content, info)) case Err(e) => Err(e))
    case HeadAccess(key) => Described(HeadObject(m, key))
    case DeleteAccess(key, strict) => ErrorReply(DeleteObject(m, key, strict).1)
    case CopyAccess(source, target, opts, now) => Described(CopyObject(lib.digests, m, source, target, opts, now).1)
    case ListAccess(prefix, max, token) =>
      (match ListObjects(m, prefix, max, token) case Ok(page) => Ok(PageAnswer(page)) case Err(e) => Err(e))
    case InitiateAccess(key, opts, now) =>
      (match InitiateMultipart(m, key, opts, now).1 case Ok(id) => Ok(IdAnswer(id)) case Err(e) => Err(e))
    case PartAccess(id, number, body) =>
      (match Memory.UploadPart(lib.digests, m, id, number, body).2 case Ok(part) => Ok(PartAnswer(part)) case Err(e) => Err(e))
    case PartsAccess(id) => (match ListParts(m, id) case Ok(parts) => Ok(PartsAnswer(parts)) case Err(e) => Err(e))
    case CompleteAccess(id, parts, now) => Described(CompleteMultipart(lib.digests, m, id, parts, now).1)
    case AbortAccess(_) => Ok(NoAnswer)
    case CloseAccess => Ok(NoAnswer)
  }
}

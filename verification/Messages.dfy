/** Requests and responses as the handlers see them, after the wire format is decoded. */
module Messages {
  import opened Common

  datatype MsgType =
    | INDEX | GETREQ | PUTREQ | DELREQ | REGISTER | COMMIT | ABORT
    | GETRESP | SUCCESS | ERROR | VOTE | ACK
    | EMPTY

  datatype Request =
    | Index
    | Get(key: string)
    | Put(key: string, value: string)
    | Del(key: string)
    | Register(host: string, port: string)
    | Commit
    | Abort

  datatype Response = Response(typ: MsgType, body: Option<string>)

  const MSG_COMMIT := "commit"
  const ERRMSG_NO_KEY := "error: no key"
  const ERRMSG_KEY_LEN := "error: improper key length"
  const ERRMSG_VAL_LEN := "error: value too long"
  const ERRMSG_INVALID_REQUEST := "error: invalid request"
  const ERRMSG_NOT_AT_CAPACITY := "error: follower_capacity not yet full"
  const ERRMSG_FOLLOWER_CAPACITY := "error: follower capacity already full"
  const ERRMSG_GENERIC_ERROR := "error: unable to process request"

  /** The GETMSG macro. */
  function ErrorMessage(error: int): string {
    if error == ERRKEYLEN then ERRMSG_KEY_LEN
    else if error == ERRVALLEN then ERRMSG_VAL_LEN
    else if error == ERRNOKEY then ERRMSG_NO_KEY
    else ERRMSG_GENERIC_ERROR
  }

  /** The text for every code, the codes of kvconstants.h spelled out. */
  lemma ErrorTexts(error: int)
    ensures ErrorMessage(error) ==
              if error == -11 then "error: improper key length"
              else if error == -12 then "error: value too long"
              else if error == -13 then "error: no key"
              else "error: unable to process request"
  {
  }

  /** No error message can be taken for a vote to commit. */
  lemma RefusalIsNoCommitVote(error: int)
    ensures ErrorMessage(error) != MSG_COMMIT && ERRMSG_INVALID_REQUEST != MSG_COMMIT
  {
    assert |ErrorMessage(error)| > |MSG_COMMIT|;
  }
}

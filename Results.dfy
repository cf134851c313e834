/** Optional values and call outcomes shared by the three platform models.
    A rejected plugin call (a thrown Error in JavaScript, `call.reject` on
    iOS and Android) is an `Err` carrying the rejection message. */
module Results {

  datatype Option<+T> = None | Some(value: T) {
    function GetOr(default: T): T {
      match this
      case Some(v) => v
      case None => default
    }
  }

  datatype Result<+T> = Ok(value: T) | Err(message: seq<char>)
}

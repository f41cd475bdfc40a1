/** The shapes of what a request handler gives back. */
module Replies {

  datatype Option<+T> = None | Some(value: T)

  /** Why the Python handler would stop with an uncaught exception (an HTTP 500)
      instead of answering. */
  datatype Fault =
    | NoMatchRow          // `list(cursor)[0]` on an empty match query
    | NoSuchPlayer        // `membership[...]` or `list(cursor)[0]` without the player
    | NoSuchTeam          // `teams[...]` without the team
    | NoLineupEntry       // `lineups[team][set]` without that lineup row
    | NoAceEntry          // `aces[match]` without that ace row
    | NullReplayHash      // `None + ".SC2Replay"`
    | MissingReplayFile   // `zfile.write` of a file that is not in the data directory

  /** A handler either finishes with a value, answers with one of its fixed
      rejection texts, or crashes. A rejection and a crash carry no new state:
      nothing the handler did before it is committed. */
  datatype Reply<+T> = Done(value: T) | Refused(message: string) | Crashed(fault: Fault)

  /** Puts `x` in front of a finished list and passes a refusal or crash through. */
  function Prepend<T>(x: T, r: Reply<seq<T>>): Reply<seq<T>> {
    match r
    case Done(xs) => Done([x] + xs)
    case Refused(e) => Refused(e)
    case Crashed(f) => Crashed(f)
  }
}

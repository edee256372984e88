/** The exception classes of the game server, as values. */
module Errors {

  datatype Error =
    | GameError(msg: string)   // GameError, thrown by Board and Game
    | GamePlayersError         // subclass of GameError: the game must have 2 players
    | ModelErrorFields         // thrown by checkUserData
    | AppError(msg: string)    // thrown by the App dispatcher
    | MessageBodyError         // an inbound text that does not parse

  /** The `message` property of each error, as the reg reply quotes it. */
  function Text(e: Error): string
  {
    match e
    case GameError(m) => m
    case GamePlayersError => "The game must have 2 players"
    case ModelErrorFields => "Does not contain mandatory fields or has an invalid type"
    case AppError(m) => m
    case MessageBodyError => ""
  }
}

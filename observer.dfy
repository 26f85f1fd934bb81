/** The four notifications the engine sends to its observers (GameObserver.java). */
module Observer {

  datatype Event =
    | LevelChanged(level: int)
    | ScoreChanged(score: int)
    | StatusMessage(text: string)
    | GameEnded(finalScore: int)
}

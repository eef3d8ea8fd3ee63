/** The move handler of the game window, without the window: a move is
    refused once the board is won or the step limit is reached. */
module Gui {
  import opened Flood
  import opened Game

  /** A move while play is still open goes to the game; a refused move
      changes nothing. Starting within the limit, play stays within it. */
  method MakeMove(game: ColorFloodGame, color: Color)
    requires game.Valid()
    modifies game, game.grid
    ensures game.Valid()
    ensures old(game.IsGameWon()) || old(game.steps) >= game.MaxSteps ==>
              game.Board == old(game.Board) && game.steps == old(game.steps)
    ensures !old(game.IsGameWon()) && old(game.steps) < game.MaxSteps ==>
              && game.Board == Move(old(game.Board), color)
              && game.steps == old(game.steps) + (if color == old(At(game.Board, Origin)) then 0 else 1)
    ensures old(game.steps) <= game.MaxSteps ==> game.steps <= game.MaxSteps
  {
    if game.IsGameWon() || game.steps >= game.MaxSteps {
      return;
    }
    game.MakeMove(color);
  }
}

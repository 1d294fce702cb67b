/**
 * The enemy as a tower sees it: an object owned by the game whose position,
 * hidden health and liveness the tower only reads. Other code may change
 * these fields between ticks.
 */
module Enemies {
  class Enemy {
    var x: real
    var y: real
    var hiddenHealth: real
    var alive: bool
  }
}

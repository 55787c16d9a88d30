/** The pressure bands every score is sorted into, and their order. */
module Levels {

  datatype Level = Low | Medium | High | Critical

  function Rank(l: Level): nat {
    match l
    case Low => 0
    case Medium => 1
    case High => 2
    case Critical => 3
  }
}

/**
 * The part of an iris cube that the rebadging and thresholding steps touch:
 * named coordinates, each with its points, and the data values.
 */
module Cubes {
  /** A cube whose coordinates and data are changed in place. */
  class Cube {
    var coords: map<string, seq<real>>
    var data: seq<real>

    constructor (coords: map<string, seq<real>>, data: seq<real>)
      ensures this.coords == coords && this.data == data
    {
      this.coords := coords;
      this.data := data;
    }
  }
}

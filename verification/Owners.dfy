/** The right to edit nodes in place: the identity a mutable list or map carries. */
module Owners {
  class Owner {
    constructor () {}
  }
}

/** The text section of the code generators that emit whole words. */
module TextSection {
  class Text<W> {
    var code: seq<W>

    constructor ()
      ensures code == []
    {
      code := [];
    }

    /** Appends one word. */
    method O(w: W)
      modifies this
      ensures code == old(code) + [w]
    {
      code := code + [w];
    }
  }
}

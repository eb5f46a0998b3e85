/**
 * Metadata.java: a mutable record of three counts.
 */
module SpellMetadata {

  class Metadata {
    var characters: int
    var words: int
    var mistakes: int

    /** `new Metadata()`: Java's default field values. */
    constructor ()
      ensures characters == 0 && words == 0 && mistakes == 0
    {
      characters, words, mistakes := 0, 0, 0;
    }

    /** `record`: overwrites the three fields and returns the same object. */
    method Record(characters: int, words: int, mistakes: int) returns (self: Metadata)
      modifies this
      ensures self == this
      ensures this.characters == characters && this.words == words && this.mistakes == mistakes
    {
      this.characters := characters;
      this.words := words;
      this.mistakes := mistakes;
      self := this;
    }

    method GetCharacters() returns (c: int)
      ensures c == characters
    {
      c := characters;
    }

    method GetWords() returns (w: int)
      ensures w == words
    {
      w := words;
    }

    method GetMistakes() returns (m: int)
      ensures m == mistakes
    {
      m := mistakes;
    }
  }

  /** A client of the record: a second `record` replaces every value of the
      first, and the getters, which change nothing, read the second back. */
  method RecordTwice(m: Metadata, c1: int, w1: int, k1: int, c2: int, w2: int, k2: int)
    returns (c: int, w: int, k: int)
    modifies m
    ensures c == c2 && w == w2 && k == k2
    ensures m.characters == c2 && m.words == w2 && m.mistakes == k2
  {
    var first := m.Record(c1, w1, k1);
    var second := first.Record(c2, w2, k2);
    assert second == m;
    c := m.GetCharacters();
    w := m.GetWords();
    k := m.GetMistakes();
  }
}

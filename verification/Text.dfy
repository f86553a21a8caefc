/** Substrings. */
module Text {

  predicate OccursAt(text: string, part: string, i: nat) {
    i + |part| <= |text| && text[i..i + |part|] == part
  }

  predicate Contains(text: string, part: string) {
    exists i | 0 <= i <= |text| :: OccursAt(text, part, i)
  }
}

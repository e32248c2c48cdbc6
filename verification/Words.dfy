/** Words of SQL, byte by byte: what may stand in one, and what beside it joins it to more. */
module Words {
  import opened Text

  predicate IsNameByte(c: char) { c == '_' || '0' <= c <= '9' || 'a' <= c <= 'z' || 'A' <= c <= 'Z' }

  /** A letter, a digit or an underscore in front of a word makes it part of a longer one; letters of
      Latin-1 count, but the signs for multiplication and division do not. */
  predicate Glues(c: char) {
    || IsNameByte(c)
    || (c as int >= 0xC0 && c as int <= 0xFF && c as int != 0xD7 && c as int != 0xF7)
    || c as int in {0xAA, 0xB5, 0xBA}
  }

  lemma GluesIff(c: char)
    ensures Glues(c) <==> IsLatin1Letter(c) || IsDigit(c) || c == '_'
    ensures IsNameByte(c) <==> IsIdentByte(c)
  {
  }
}

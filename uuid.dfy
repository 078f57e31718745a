/** The text form of a version-4 UUID as `str(uuid.uuid4())` prints it:
    the string grammar of section 3 of RFC 4122, in lower-case hex, with the
    version nibble `4` and the variant nibble one of `8`, `9`, `a`, `b`. */
module Uuid {

  predicate IsHexDigit(ch: char)
  {
    '0' <= ch <= '9' || 'a' <= ch <= 'f'
  }

  predicate IsHyphenPosition(i: int)
  {
    i == 8 || i == 13 || i == 18 || i == 23
  }

  predicate IsUuid4String(u: string)
  {
    && |u| == 36
    && (forall i :: 0 <= i < 36 ==> if IsHyphenPosition(i) then u[i] == '-' else IsHexDigit(u[i]))
    && u[14] == '4'
    && u[19] in "89ab"
  }

  /** Every character of a UUID string is a hex digit or `-`: it never
      holds the separators and query characters the scripts rely on. */
  lemma Uuid4Alphabet(u: string)
    requires IsUuid4String(u)
    ensures forall i :: 0 <= i < |u| ==> IsHexDigit(u[i]) || u[i] == '-'
    ensures '_' !in u && '/' !in u && '.' !in u
    ensures '&' !in u && '#' !in u && '+' !in u && '%' !in u
  {
    forall i | 0 <= i < |u| ensures IsHexDigit(u[i]) || u[i] == '-' {
      assert IsHyphenPosition(i) || IsHexDigit(u[i]);
    }
  }

  /** A concrete identifier satisfies the grammar. */
  lemma Uuid4Example()
    ensures IsUuid4String("3f2b8c1e-9d4a-4e7b-a1c2-5d6e7f809a1b")
  {
    var u := "3f2b8c1e-9d4a-4e7b-a1c2-5d6e7f809a1b";
    forall i | 0 <= i < 36 ensures if IsHyphenPosition(i) then u[i] == '-' else IsHexDigit(u[i]) {
    }
  }
}

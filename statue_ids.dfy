/**
 * The random 16-character identifiers both versions generate: in the newer version the
 * statue id stored in the entity's persistent data, in the older one the entity's custom name.
 */
module StatueIds {

  /** `n` consecutive characters starting at `first`. */
  function Run(first: char, n: nat): (r: string)
    requires first as int + n <= 0xD800
    ensures |r| == n
    ensures forall i :: 0 <= i < n ==> r[i] as int == first as int + i
  {
    seq(n, i requires 0 <= i < n => (first as int + i) as char)
  }

  /**
   * The generator's alphabet "ABC...XYZabc...xyz012...789": the upper-case letters, the
   * lower-case letters, then the digits, in that order.
   */
  const Characters: string := Run('A', 26) + Run('a', 26) + Run('0', 10)

  /** Number of characters in a generated id. */
  const IdLength: nat := 16

  predicate IsAlphanumeric(c: char)
  {
    'A' <= c <= 'Z' || 'a' <= c <= 'z' || '0' <= c <= '9'
  }

  /** The shape of every generated id: 16 characters drawn from the alphabet. */
  predicate IsStatueId(s: string)
  {
    |s| == IdLength && forall i :: 0 <= i < |s| ==> s[i] in Characters
  }

  /** The alphabet holds exactly the 62 ASCII letters and digits, each once. */
  lemma CharactersAreAlphanumeric()
    ensures |Characters| == 62
    ensures forall c :: c in Characters <==> IsAlphanumeric(c)
    ensures forall i, j :: 0 <= i < j < |Characters| ==> Characters[i] != Characters[j]
  {
    forall c | IsAlphanumeric(c) ensures c in Characters {
      if 'A' <= c <= 'Z' {
        assert Characters[c as int - 'A' as int] == c;
      } else if 'a' <= c <= 'z' {
        assert Characters[26 + (c as int - 'a' as int)] == c;
      } else {
        assert Characters[52 + (c as int - '0' as int)] == c;
      }
    }
  }

  /** A generated id contains only ASCII letters and digits. */
  lemma StatueIdIsAlphanumeric(s: string)
    requires IsStatueId(s)
    ensures |s| == 16
    ensures forall i :: 0 <= i < |s| ==> IsAlphanumeric(s[i])
  {
    CharactersAreAlphanumeric();
  }

  /**
   * `generateRandomName`: sixteen times, append the character at a random index of the
   * alphabet. The random source is a nondeterministic choice of the index.
   */
  method GenerateRandomName() returns (name: string)
    ensures IsStatueId(name)
  {
    name := "";
    for i := 0 to IdLength
      invariant |name| == i
      invariant forall k :: 0 <= k < |name| ==> name[k] in Characters
    {
      var index :| 0 <= index < |Characters|;
      name := name + [Characters[index]];
    }
  }
}

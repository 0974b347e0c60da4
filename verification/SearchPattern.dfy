/**
 The Horspool substring matcher of the search index: compare right to left, and on a mismatch
 skip by the table entry of the haystack byte under the needle's last position.
 */
module SearchPattern {
  import opened Basics

  /**
   `d` is a sound skip for byte `c`: `c` is not among the needle bytes that end up under the
   same haystack position after a shorter shift.
   */
  ghost predicate SoundSkip(needle: seq<byte>, c: byte, d: nat) {
    && d <= |needle|
    && (needle != [] ==> 1 <= d)
    && forall i | 0 <= i && |needle| - d <= i < |needle| - 1 :: needle[i] != c
  }

  /** ... and it is the largest one: a longer skip would pass an occurrence of `c`. */
  ghost predicate ExactSkip(needle: seq<byte>, c: byte, d: nat) {
    && SoundSkip(needle, c, d)
    && (d < |needle| ==> needle[|needle| - 1 - d] == c)
  }

  /** No occurrence starts at or strictly between a failed alignment and the next one. */
  lemma SkipMissesNothing(needle: seq<byte>, haystack: seq<byte>, at: nat, bad: nat, d: nat, x: nat)
    requires at + |needle| <= |haystack| && bad < |needle|
    requires haystack[at + bad] != needle[bad]
    requires SoundSkip(needle, haystack[at + |needle| - 1], d)
    requires at <= x < at + d
    ensures !OccursAt(haystack, needle, x)
  {
    var m := |needle|;
    if x + m <= |haystack| {
      var k := if x == at then bad else at + m - 1 - x;
      assert haystack[x..x + m][k] == haystack[x + k] != needle[k];
    }
  }

  class Uint8ArraySearchPattern {
    const needle: seq<byte>
    const skipTable: array<nat>

    ghost predicate Valid()
      reads skipTable
    {
      && skipTable.Length == 256
      && forall c: byte :: ExactSkip(needle, c, skipTable[c])
    }

    constructor (needle: seq<byte>)
      ensures Valid() && this.needle == needle && fresh(skipTable)
    {
      this.needle := needle;
      var m := |needle|;
      var table := new nat[256](_ => m);
      skipTable := table;
      new;
      var i := 0;
      while i < m - 1
        invariant 0 <= i <= m && (m > 0 ==> i < m)
        invariant forall c: byte :: 1 <= table[c] <= m || table[c] == m
        invariant forall c: byte :: forall x | 0 <= x < i && m - table[c] <= x :: needle[x] != c
        invariant forall c: byte :: table[c] < m ==> m - 1 - table[c] < i && needle[m - 1 - table[c]] == c
      {
        table[needle[i]] := m - 1 - i;
        i := i + 1;
      }
    }

    /** Whether the needle occurs contiguously in the haystack. */
    method Matches(haystack: seq<byte>) returns (r: bool)
      requires Valid()
      ensures r <==> Contains(haystack, needle)
    {
      var m, n := |needle|, |haystack|;
      var skip := 0;
      while n - skip >= m
        invariant 0 <= skip
        invariant forall x | 0 <= x < skip :: !OccursAt(haystack, needle, x)
        decreases n - skip
      {
        var i := m - 1;
        while i >= 0 && haystack[skip + i] == needle[i]
          invariant -1 <= i < m
          invariant forall j | i < j < m :: haystack[skip + j] == needle[j]
        {
          i := i - 1;
        }
        if i < 0 {
          assert OccursAt(haystack, needle, skip);
          return true;
        }
        var d := skipTable[haystack[skip + m - 1]];
        forall x | skip <= x < skip + d ensures !OccursAt(haystack, needle, x) {
          SkipMissesNothing(needle, haystack, skip, i, d, x);
        }
        skip := skip + d;
      }
      return false;
    }
  }
}

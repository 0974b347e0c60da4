/** Texts cut at a separator: the parts of a dotted key, the lines of a document. */
module Separators {
  /** The parts between the separators; there is always at least one. */
  function Split(s: string, sep: char): (parts: seq<string>)
    ensures parts != [] && Size(parts) == |s|
    ensures forall p | p in parts :: sep !in p
  {
    if s == "" then [""]
    else
      var rest := Split(s[1..], sep);
      var parts := if s[0] == sep then [""] + rest else [[s[0]] + rest[0]] + rest[1..];
      assert parts[1..] == (if s[0] == sep then rest else rest[1..]);
      parts
  }

  function Join(parts: seq<string>, sep: char): (s: string)
    ensures parts != [] ==> |s| == Size(parts)
  {
    if parts == [] then "" else if |parts| == 1 then parts[0] else parts[0] + [sep] + Join(parts[1..], sep)
  }

  /** The length of the parts joined by separators. */
  function Size(parts: seq<string>): nat {
    if parts == [] then 0 else if |parts| == 1 then |parts[0]| else |parts[0]| + 1 + Size(parts[1..])
  }

  lemma {:induction false} SizeOfSlice(parts: seq<string>, i: nat, j: nat)
    requires i <= j <= |parts|
    ensures Size(parts[i..j]) <= Size(parts)
    decreases |parts|
  {
    if parts == [] || i == j {
    } else if i > 0 {
      SizeOfSlice(parts[1..], i - 1, j - 1);
      assert parts[1..][i - 1..j - 1] == parts[i..j];
    } else {
      SizeOfSlice(parts[1..], 0, j - 1);
      assert parts[0..j][1..] == parts[1..][0..j - 1];
    }
  }

  /** The parts without separators in them that give the text when joined. */
  ghost predicate AreParts(parts: seq<string>, s: string, sep: char) {
    && parts != []
    && (forall p | p in parts :: sep !in p)
    && Join(parts, sep) == s
  }

  lemma {:induction false} JoinOfSplit(s: string, sep: char)
    ensures Join(Split(s, sep), sep) == s
  {
    if s != "" {
      var rest := Split(s[1..], sep);
      JoinOfSplit(s[1..], sep);
      if s[0] == sep {
        assert Split(s, sep)[1..] == rest;
        assert "" + [sep] + s[1..] == s;
      } else {
        assert Split(s, sep)[1..] == rest[1..];
        if |rest| > 1 {
          assert ([s[0]] + rest[0]) + [sep] + Join(rest[1..], sep) == [s[0]] + (rest[0] + [sep] + Join(rest[1..], sep));
        }
        assert [s[0]] + s[1..] == s;
      }
    }
  }

  lemma {:induction false} SplitOfPlain(p: string, sep: char)
    requires sep !in p
    ensures Split(p, sep) == [p]
  {
    if p != "" {
      assert sep !in p[1..];
      SplitOfPlain(p[1..], sep);
      assert [p[0]] + p[1..] == p;
    }
  }

  lemma {:induction false} SplitAfterPlain(p: string, sep: char, s: string)
    requires sep !in p
    ensures Split(p + [sep] + s, sep) == [p] + Split(s, sep)
  {
    var t := p + [sep] + s;
    if p == "" {
      assert t[1..] == s;
    } else {
      assert sep !in p[1..];
      SplitAfterPlain(p[1..], sep, s);
      assert t[1..] == p[1..] + [sep] + s;
      assert [p[0]] + p[1..] == p;
    }
  }

  lemma {:induction false} SplitOfJoin(parts: seq<string>, sep: char)
    requires parts != [] && forall p | p in parts :: sep !in p
    ensures Split(Join(parts, sep), sep) == parts
  {
    if |parts| == 1 {
      SplitOfPlain(parts[0], sep);
    } else {
      SplitOfJoin(parts[1..], sep);
      SplitAfterPlain(parts[0], sep, Join(parts[1..], sep));
    }
  }

  /** A text has exactly one list of parts. */
  lemma PartsExactly(parts: seq<string>, s: string, sep: char)
    ensures AreParts(parts, s, sep) <==> parts == Split(s, sep)
  {
    JoinOfSplit(s, sep);
    if AreParts(parts, s, sep) {
      SplitOfJoin(parts, sep);
    }
  }
}

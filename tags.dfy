/** The `tags` column stores a card's tag list as one comma-joined string.
    Writing a list joins it with ","; reading a row splits the string on ","
    again, except that a missing or empty string reads as no tags at all. */
module Tags {

  const Comma: char := ','

  /** `",".join(items)`: the items separated by single commas. */
  function Join(items: seq<string>): string
  {
    if |items| == 0 then ""
    else if |items| == 1 then items[0]
    else items[0] + [Comma] + Join(items[1..])
  }

  /** `s.split(",")`: the maximal comma-free pieces of `s`, empty ones
      included, so a string with n commas always yields n + 1 pieces. */
  function Split(s: string): (parts: seq<string>)
    ensures |parts| >= 1
    ensures |parts| == 1 ==> Comma !in s
  {
    if |s| == 0 then [""]
    else
      var rest := Split(s[1..]);
      if s[0] == Comma then [""] + rest
      else [[s[0]] + rest[0]] + rest[1..]
  }

  /** How a stored tag string reads back as a list. */
  function Decode(stored: string): seq<string>
  {
    if stored == "" then [] else Split(stored)
  }

  predicate CommaFree(items: seq<string>)
  {
    forall i :: 0 <= i < |items| ==> Comma !in items[i]
  }

  /** A piece without commas splits to itself. */
  lemma {:induction false} SplitCommaFree(t: string)
    requires Comma !in t
    ensures Split(t) == [t]
  {
    if |t| > 0 {
      SplitCommaFree(t[1..]);
      assert [t[0]] + t[1..] == t;
    }
  }

  /** Splitting a comma-free piece followed by a comma peels off that piece. */
  lemma {:induction false} SplitPeel(t: string, rest: string)
    requires Comma !in t
    ensures Split(t + [Comma] + rest) == [t] + Split(rest)
  {
    var s := t + [Comma] + rest;
    if |t| == 0 {
      assert s == [Comma] + rest;
      assert s[1..] == rest;
    } else {
      assert s[1..] == t[1..] + [Comma] + rest;
      SplitPeel(t[1..], rest);
      assert [t[0]] + t[1..] == t;
    }
  }

  /** Splitting undoes joining for any non-empty list of comma-free tags. */
  lemma {:induction false} SplitJoin(items: seq<string>)
    requires |items| >= 1
    requires CommaFree(items)
    ensures Split(Join(items)) == items
  {
    if |items| == 1 {
      SplitCommaFree(items[0]);
    } else {
      SplitJoin(items[1..]);
      SplitPeel(items[0], Join(items[1..]));
      assert [items[0]] + items[1..] == items;
    }
  }

  /** Joining undoes splitting for every string. */
  lemma {:induction false} JoinSplit(s: string)
    ensures Join(Split(s)) == s
  {
    if |s| > 0 {
      JoinSplit(s[1..]);
      var rest := Split(s[1..]);
      if s[0] == Comma {
        assert Split(s)[1..] == rest;
        assert s == [Comma] + s[1..];
      } else {
        var parts := Split(s);
        assert parts[0] == [s[0]] + rest[0];
        assert parts[1..] == rest[1..];
        if |rest| == 1 {
          assert s == [s[0]] + rest[0];
        } else {
          assert Join(rest) == rest[0] + [Comma] + Join(rest[1..]);
          assert s == [s[0]] + s[1..];
        }
      }
    }
  }

  /** A tag list written by joining reads back unchanged, provided no tag
      holds a comma and the list is not `[""]` (which joins to "" and reads
      back as `[]`); the empty list reads back as itself. */
  lemma DecodeJoin(items: seq<string>)
    requires CommaFree(items)
    requires items != [""]
    ensures Decode(Join(items)) == items
  {
    if |items| == 1 {
      assert items == [items[0]];
    }
    if |items| >= 1 {
      assert Join(items) != "";
      SplitJoin(items);
    }
  }

  /** Reading any stored string, the default "" included, and joining the
      result gives back exactly what was stored. */
  lemma JoinDecode(stored: string)
    ensures Join(Decode(stored)) == stored
  {
    if stored != "" {
      JoinSplit(stored);
    }
  }
}

/** The parts of Go's `strings` package the service relies on:
    `Contains`, `Join` and `Split` with a one-character separator. */
module Strings {

  predicate HasPrefix(s: string, prefix: string)
  {
    |prefix| <= |s| && s[..|prefix|] == prefix
  }

  /** `sub` occurs in `s` starting at index `i`. */
  predicate OccursAt(s: string, sub: string, i: int)
  {
    0 <= i && i + |sub| <= |s| && s[i..i + |sub|] == sub
  }

  /** `strings.Contains(s, sub)`. */
  predicate Contains(s: string, sub: string)
  {
    exists i | 0 <= i <= |s| :: OccursAt(s, sub, i)
  }

  /** A string that starts with `sub` contains it. */
  lemma ContainsPrefix(s: string, sub: string)
    requires HasPrefix(s, sub)
    ensures Contains(s, sub)
  {
    assert OccursAt(s, sub, 0);
  }

  /** Text appended to a string that starts with `sub` does not hide it. */
  lemma ContainsStartOf(prefix: string, t: string, sub: string)
    requires HasPrefix(prefix, sub)
    ensures Contains(prefix + t, sub)
  {
    assert (prefix + t)[..|sub|] == prefix[..|sub|];
    ContainsPrefix(prefix + t, sub);
  }

  /** A string without the first character of `sub` cannot contain `sub`. */
  lemma MissingFirstCharNotContained(s: string, sub: string)
    requires |sub| > 0 && sub[0] !in s
    ensures !Contains(s, sub)
  {
    forall i | 0 <= i <= |s|
      ensures !OccursAt(s, sub, i)
    {
      if 0 <= i && i + |sub| <= |s| {
        assert s[i..i + |sub|][0] == s[i];
        assert s[i] in s;
      }
    }
  }

  /** Behind a prefix that lacks the first character of `sub`, `sub` occurs
      in the whole string exactly when it occurs in the rest. */
  lemma ContainsAfterPrefix(prefix: string, t: string, sub: string)
    requires |sub| > 0 && sub[0] !in prefix
    ensures Contains(prefix + t, sub) <==> Contains(t, sub)
  {
    var s := prefix + t;
    forall i | 0 <= i < |prefix|
      ensures !OccursAt(s, sub, i)
    {
      if i + |sub| <= |s| {
        assert s[i..i + |sub|][0] == prefix[i];
        assert prefix[i] in prefix;
      }
    }
    forall i | |prefix| <= i <= |s|
      ensures OccursAt(s, sub, i) <==> OccursAt(t, sub, i - |prefix|)
    {
      if i + |sub| <= |s| {
        assert s[i..i + |sub|] == t[i - |prefix|..i - |prefix| + |sub|];
      }
    }
    if Contains(t, sub) {
      var j :| 0 <= j <= |t| && OccursAt(t, sub, j);
      assert OccursAt(s, sub, j + |prefix|);
    }
    if Contains(s, sub) {
      var i :| 0 <= i <= |s| && OccursAt(s, sub, i);
      assert OccursAt(t, sub, i - |prefix|);
    }
  }

  /** `strings.Join(parts, sep)`. */
  function Join(parts: seq<string>, sep: string): string
  {
    if |parts| == 0 then ""
    else if |parts| == 1 then parts[0]
    else parts[0] + sep + Join(parts[1..], sep)
  }

  /** `strings.Split(s, string(sep))`: the pieces between consecutive
      occurrences of `sep`; none of them contains `sep`, and joining them
      with `sep` gives back `s`. */
  function Split(s: string, sep: char): (parts: seq<string>)
    ensures |parts| >= 1
    ensures forall k :: 0 <= k < |parts| ==> sep !in parts[k]
    ensures Join(parts, [sep]) == s
    decreases |s|
  {
    if s == [] then [""]
    else
      var rest := Split(s[1..], sep);
      if s[0] == sep then
        assert [s[0]] + s[1..] == s;
        [""] + rest
      else
        var parts := [[s[0]] + rest[0]] + rest[1..];
        assert Join(parts, [sep]) == [s[0]] + Join(rest, [sep]) by {
          if |rest| > 1 {
            assert parts[1..] == rest[1..];
          }
        }
        assert [s[0]] + s[1..] == s;
        parts
  }

  /** Splitting a string that holds no separator gives the string itself. */
  lemma {:induction false} SplitWithoutSeparator(s: string, sep: char)
    requires sep !in s
    ensures Split(s, sep) == [s]
    decreases |s|
  {
    if s != [] {
      SplitWithoutSeparator(s[1..], sep);
      assert [s[0]] + s[1..] == s;
    }
  }

  /** A separator-free prefix becomes the start of the first piece. */
  lemma {:induction false} SplitAfterPrefix(prefix: string, s: string, sep: char)
    requires sep !in prefix
    ensures Split(prefix + s, sep) == [prefix + Split(s, sep)[0]] + Split(s, sep)[1..]
    decreases |prefix|
  {
    if prefix != [] {
      SplitAfterPrefix(prefix[1..], s, sep);
      var whole := prefix + s;
      assert whole[0] == prefix[0] && prefix[0] in prefix;
      assert whole[1..] == prefix[1..] + s;
      var rest := Split(whole[1..], sep);
      assert rest[0] == prefix[1..] + Split(s, sep)[0];
      assert rest[1..] == Split(s, sep)[1..];
      assert Split(whole, sep) == [[whole[0]] + rest[0]] + rest[1..];
      assert [prefix[0]] + prefix[1..] == prefix;
      assert [whole[0]] + rest[0] == prefix + Split(s, sep)[0];
    } else {
      assert prefix + s == s;
      assert prefix + Split(s, sep)[0] == Split(s, sep)[0];
      assert Split(s, sep) == [Split(s, sep)[0]] + Split(s, sep)[1..];
    }
  }

  /** A string splits into exactly the two pieces `a` and `b` if and only if
      it is `a`, the separator, `b`, with no separator inside `a` or `b`. */
  lemma SplitInTwo(s: string, sep: char, a: string, b: string)
    ensures Split(s, sep) == [a, b] <==> (s == a + [sep] + b && sep !in a && sep !in b)
  {
    if s == a + [sep] + b && sep !in a && sep !in b {
      SplitJoinedPair(a, b, sep);
    }
    if Split(s, sep) == [a, b] {
      assert Join([a, b], [sep]) == a + [sep] + b;
    }
  }

  lemma SplitJoinedPair(a: string, b: string, sep: char)
    requires sep !in a && sep !in b
    ensures Split(a + [sep] + b, sep) == [a, b]
  {
    var tail := [sep] + b;
    SplitWithoutSeparator(b, sep);
    assert tail[1..] == b;
    assert Split(tail, sep) == [""] + [b];
    SplitAfterPrefix(a, tail, sep);
    assert Split(tail, sep)[0] == "" && Split(tail, sep)[1..] == [b];
    assert a + "" == a;
    assert a + tail == a + [sep] + b;
  }
}

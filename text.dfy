/** The string operations the node relies on: `String.prototype.trim`,
    `startsWith` followed by `replace(prefix, '')`, and `Array.prototype.join`. */
module Text {

  /** The code points ECMAScript's `trim` removes: WhiteSpace (tab, vertical tab,
      form feed, space, no-break space, byte order mark and the Zs separators)
      and LineTerminator (LF, CR, U+2028, U+2029). */
  predicate IsWhitespace(c: char)
  {
    var n := c as int;
    n == 0x09 || n == 0x0A || n == 0x0B || n == 0x0C || n == 0x0D || n == 0x20
    || n == 0xA0 || n == 0x1680 || (0x2000 <= n <= 0x200A) || n == 0x2028
    || n == 0x2029 || n == 0x202F || n == 0x205F || n == 0x3000 || n == 0xFEFF
  }

  predicate AllWhitespace(s: string)
  {
    forall i :: 0 <= i < |s| ==> IsWhitespace(s[i])
  }

  /** Drops the leading whitespace: what is left is a suffix of `s` that does not
      start with whitespace, and what was dropped is all whitespace. */
  function TrimStart(s: string): (r: string)
    ensures |r| <= |s| && r == s[|s| - |r|..]
    ensures r == [] || !IsWhitespace(r[0])
    ensures AllWhitespace(s[..|s| - |r|])
  {
    if s == [] || !IsWhitespace(s[0]) then s
    else
      var r := TrimStart(s[1..]);
      assert s[..|s| - |r|] == [s[0]] + s[1..][..|s[1..]| - |r|];
      r
  }

  /** Drops the trailing whitespace: what is left is a prefix of `s` that does not
      end with whitespace, and what was dropped is all whitespace. */
  function TrimEnd(s: string): (r: string)
    ensures |r| <= |s| && r == s[..|r|]
    ensures r == [] || !IsWhitespace(r[|r| - 1])
    ensures AllWhitespace(s[|r|..])
  {
    if s == [] || !IsWhitespace(s[|s| - 1]) then s
    else
      var r := TrimEnd(s[..|s| - 1]);
      assert s[|r|..] == s[..|s| - 1][|r|..] + [s[|s| - 1]];
      r
  }

  /** `r` is the part of `s` between a whitespace prefix of length `a` and a
      whitespace suffix. */
  ghost predicate StripsTo(s: string, r: string, a: int)
  {
    0 <= a <= |s| - |r| && r == s[a..a + |r|] && AllWhitespace(s[..a]) && AllWhitespace(s[a + |r|..])
  }

  /** `s.trim()`: `s` without its leading and trailing whitespace. The result is
      empty exactly when `s` is all whitespace, which is when the node treats a
      field value as not filled in. */
  function Trim(s: string): (r: string)
    ensures exists a :: StripsTo(s, r, a)
    ensures r == [] || (!IsWhitespace(r[0]) && !IsWhitespace(r[|r| - 1]))
    ensures r == [] <==> AllWhitespace(s)
    ensures |r| <= |s|
  {
    var t := TrimStart(s);
    var r := TrimEnd(t);
    StripsCompose(s, t, r);
    r
  }

  /** Stripping a whitespace prefix and then a whitespace suffix strips both
      ends; nothing is left exactly when everything was whitespace. */
  lemma StripsCompose(s: string, t: string, r: string)
    requires |t| <= |s| && t == s[|s| - |t|..] && AllWhitespace(s[..|s| - |t|])
    requires t == [] || !IsWhitespace(t[0])
    requires |r| <= |t| && r == t[..|r|] && AllWhitespace(t[|r|..])
    ensures StripsTo(s, r, |s| - |t|)
    ensures r == [] <==> AllWhitespace(s)
  {
    var a := |s| - |t|;
    assert r == s[a..a + |r|];
    assert s[a + |r|..] == t[|r|..];
    if r == [] {
      assert t == [];
      assert s[..a] == s;
    }
  }

  predicate StartsWith(s: string, prefix: string)
  {
    |prefix| <= |s| && s[..|prefix|] == prefix
  }

  /** `s.replace(prefix, '')` on a string that starts with `prefix`: the first
      occurrence is the prefix itself, so the prefix is removed. The result is
      the one suffix that `prefix` completes to `s`. */
  function RemovePrefix(s: string, prefix: string): (r: string)
    requires StartsWith(s, prefix)
    ensures prefix + r == s
  {
    s[|prefix|..]
  }

  /** Putting a prefix in front and removing it again gives back the suffix;
      a string starts with `prefix` and leaves `rest` exactly when it is `prefix + rest`. */
  lemma {:induction false} PrefixRoundTrip(prefix: string, rest: string, s: string)
    ensures StartsWith(prefix + rest, prefix) && RemovePrefix(prefix + rest, prefix) == rest
    ensures StartsWith(s, prefix) && RemovePrefix(s, prefix) == rest <==> s == prefix + rest
  {
    assert (prefix + rest)[..|prefix|] == prefix;
    assert (prefix + rest)[|prefix|..] == rest;
    if s == prefix + rest {
      assert s[..|prefix|] == prefix;
    }
  }

  /** `xs.join(sep)`. */
  function Join(xs: seq<string>, sep: string): (r: string)
    ensures xs != [] ==> xs[0] <= r
  {
    if xs == [] then []
    else if |xs| == 1 then xs[0]
    else xs[0] + sep + Join(xs[1..], sep)
  }

  predicate OccursAt(needle: string, hay: string, o: int)
  {
    0 <= o <= |hay| - |needle| && hay[o..o + |needle|] == needle
  }

  ghost predicate Occurs(needle: string, hay: string)
  {
    exists o :: OccursAt(needle, hay, o)
  }

  /** Every joined element can be read back out of the joined string. */
  lemma {:induction false} JoinContainsEach(xs: seq<string>, sep: string, k: nat)
    requires k < |xs|
    ensures Occurs(xs[k], Join(xs, sep))
  {
    var j := Join(xs, sep);
    if |xs| == 1 {
      assert OccursAt(xs[k], j, 0);
    } else if k == 0 {
      assert j == xs[0] + (sep + Join(xs[1..], sep));
      assert OccursAt(xs[k], j, 0);
    } else {
      JoinContainsEach(xs[1..], sep, k - 1);
      var rest := Join(xs[1..], sep);
      var o :| OccursAt(xs[k], rest, o);
      var off := |xs[0]| + |sep|;
      assert j == (xs[0] + sep) + rest;
      assert j[off + o..off + o + |xs[k]|] == rest[o..o + |xs[k]|];
      assert OccursAt(xs[k], j, off + o);
    }
  }
}

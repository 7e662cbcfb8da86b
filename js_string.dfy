/**
 * The JavaScript string built-ins the core relies on, as ECMAScript defines them:
 * `String.prototype.trim`, `String.prototype.toLowerCase` and `String.prototype.split`
 * with a one-character separator.
 */
module JsString {

  /** ECMAScript WhiteSpace and LineTerminator code points: exactly what `trim` removes. */
  predicate IsWhiteSpace(c: char)
  {
    c == '\t' || c == '\n' || c == '\U{000B}' || c == '\U{000C}' || c == '\r' || c == ' '
    || c == '\U{00A0}' || c == '\U{1680}' || ('\U{2000}' <= c <= '\U{200A}')
    || c == '\U{2028}' || c == '\U{2029}' || c == '\U{202F}' || c == '\U{205F}'
    || c == '\U{3000}' || c == '\U{FEFF}'
  }

  /** Removes leading white space. */
  function TrimStart(s: string): (r: string)
    ensures |r| <= |s| && r == s[|s| - |r|..]
    ensures forall i :: 0 <= i < |s| - |r| ==> IsWhiteSpace(s[i])
    ensures r == [] || !IsWhiteSpace(r[0])
    decreases |s|
  {
    if s != [] && IsWhiteSpace(s[0]) then TrimStart(s[1..]) else s
  }

  /** Removes trailing white space. */
  function TrimEnd(s: string): (r: string)
    ensures |r| <= |s| && r == s[..|r|]
    ensures forall i :: |r| <= i < |s| ==> IsWhiteSpace(s[i])
    ensures r == [] || !IsWhiteSpace(r[|r| - 1])
    decreases |s|
  {
    if s != [] && IsWhiteSpace(s[|s| - 1]) then TrimEnd(s[..|s| - 1]) else s
  }

  /** Everything of `s` before index `a` and from index `b` on is white space. */
  predicate WhiteOutside(s: string, a: int, b: int)
  {
    && 0 <= a <= b <= |s|
    && (forall i :: 0 <= i < a ==> IsWhiteSpace(s[i]))
    && (forall i :: b <= i < |s| ==> IsWhiteSpace(s[i]))
  }

  /** `s.trim()`: the input without leading and trailing white space. */
  function Trim(s: string): (r: string)
    ensures |r| <= |s|
    ensures exists a, b :: WhiteOutside(s, a, b) && r == s[a..b]
    ensures r == [] || (!IsWhiteSpace(r[0]) && !IsWhiteSpace(r[|r| - 1]))
    ensures (forall i :: 0 <= i < |s| ==> IsWhiteSpace(s[i])) <==> r == []
  {
    var t := TrimStart(s);
    TrimSlice(s, t, TrimEnd(t));
    TrimEnd(t)
  }

  /** Cutting white space off the front and then off the back cuts only white space, at either end. */
  lemma TrimSlice(s: string, t: string, r: string)
    requires |t| <= |s| && t == s[|s| - |t|..] && forall i :: 0 <= i < |s| - |t| ==> IsWhiteSpace(s[i])
    requires |r| <= |t| && r == t[..|r|] && forall i :: |r| <= i < |t| ==> IsWhiteSpace(t[i])
    ensures WhiteOutside(s, |s| - |t|, |s| - |t| + |r|) && r == s[|s| - |t|..|s| - |t| + |r|]
  {
    var a := |s| - |t|;
    forall i | a + |r| <= i < |s| ensures IsWhiteSpace(s[i]) {
      assert s[i] == t[i - a];
    }
  }

  /** Upper-case letters of Basic Latin and Latin-1 Supplement (the multiplication sign excluded). */
  predicate IsUpper(c: char)
  {
    ('A' <= c <= 'Z') || ('\U{00C0}' <= c <= '\U{00DE}' && c != '\U{00D7}')
  }

  /** Lower-cases one character; every other character is left alone. */
  function LowerChar(c: char): (r: char)
    ensures !IsUpper(r)
    ensures IsUpper(c) ==> r as int == c as int + 32
    ensures !IsUpper(c) ==> r == c
    ensures IsWhiteSpace(r) <==> IsWhiteSpace(c)
  {
    if IsUpper(c) then (c as int + 32) as char else c
  }

  /** `s.toLowerCase()`, restricted to the letters `IsUpper` names. */
  function ToLowerCase(s: string): (r: string)
    ensures |r| == |s|
    ensures forall i :: 0 <= i < |r| ==> !IsUpper(r[i])
    ensures forall i :: 0 <= i < |s| && !IsUpper(s[i]) ==> r[i] == s[i]
    ensures forall i :: 0 <= i < |s| && IsUpper(s[i]) ==> r[i] as int == s[i] as int + 32
  {
    seq(|s|, i requires 0 <= i < |s| => LowerChar(s[i]))
  }

  lemma ToLowerCaseIdempotent(s: string)
    ensures ToLowerCase(ToLowerCase(s)) == ToLowerCase(s)
  {
  }

  lemma {:induction false} TrimStartLower(s: string)
    ensures TrimStart(ToLowerCase(s)) == ToLowerCase(TrimStart(s))
    decreases |s|
  {
    if s != [] {
      assert ToLowerCase(s)[0] == LowerChar(s[0]);
      assert ToLowerCase(s)[1..] == ToLowerCase(s[1..]);
      if IsWhiteSpace(s[0]) {
        TrimStartLower(s[1..]);
      }
    }
  }

  lemma {:induction false} TrimEndLower(s: string)
    ensures TrimEnd(ToLowerCase(s)) == ToLowerCase(TrimEnd(s))
    decreases |s|
  {
    var l := ToLowerCase(s);
    if s != [] {
      var n := |s| - 1;
      assert l[n] == LowerChar(s[n]);
      if IsWhiteSpace(s[n]) {
        assert l[..n] == ToLowerCase(s[..n]);
        calc {
          TrimEnd(l);
          TrimEnd(l[..n]);
          { TrimEndLower(s[..n]); }
          ToLowerCase(TrimEnd(s[..n]));
        }
      } else {
        assert TrimEnd(l) == l;
        assert TrimEnd(s) == s;
      }
    }
  }

  /** Trimming and lower-casing commute, because lower-casing maps white space to white space. */
  lemma TrimLowerCommute(s: string)
    ensures Trim(ToLowerCase(s)) == ToLowerCase(Trim(s))
  {
    TrimStartLower(s);
    TrimEndLower(TrimStart(s));
  }

  lemma TrimIdempotent(s: string)
    ensures Trim(Trim(s)) == Trim(s)
  {
    var r := Trim(s);
    assert TrimStart(r) == r;
    assert TrimEnd(r) == r;
  }

  /** `fields.join(sep)`. */
  function Join(fields: seq<string>, sep: char): string
  {
    if fields == [] then []
    else if |fields| == 1 then fields[0]
    else fields[0] + [sep] + Join(fields[1..], sep)
  }

  /**
   * `s.split(sep)` for a one-character separator: the maximal runs between separators,
   * always at least one field (`"".split(" ")` is `[""]`).
   */
  function Split(s: string, sep: char): (fields: seq<string>)
    ensures |fields| >= 1
    ensures forall i :: 0 <= i < |fields| ==> sep !in fields[i]
    ensures Join(fields, sep) == s
    decreases |s|
  {
    if s == [] then [[]]
    else if s[0] == sep then [[]] + Split(s[1..], sep)
    else
      var rest := Split(s[1..], sep);
      [[s[0]] + rest[0]] + rest[1..]
  }

  lemma SplitCons(c: char, t: string, sep: char)
    requires c != sep
    ensures Split([c] + t, sep) == [[c] + Split(t, sep)[0]] + Split(t, sep)[1..]
  {
    assert ([c] + t)[1..] == t;
  }

  lemma JoinHeadChar(fields: seq<string>, sep: char)
    requires |fields| >= 1 && fields[0] != []
    ensures Join(fields, sep) == [fields[0][0]] + Join([fields[0][1..]] + fields[1..], sep)
  {
    var f := fields[0];
    var tail := [f[1..]] + fields[1..];
    assert tail[1..] == fields[1..];
    assert f == [f[0]] + f[1..];
  }

  lemma NoSepInTail(f: string, sep: char)
    requires f != [] && sep !in f
    ensures sep !in f[1..] && f[0] != sep
  {
    assert f[0] in f;
    forall k | 0 <= k < |f[1..]| ensures f[1..][k] != sep {
      assert f[1..][k] == f[k + 1];
      assert f[k + 1] in f;
    }
  }

  /** The other round trip: splitting a join of separator-free fields gives the fields back. */
  lemma {:induction false} SplitJoin(fields: seq<string>, sep: char)
    requires |fields| >= 1
    requires forall i :: 0 <= i < |fields| ==> sep !in fields[i]
    ensures Split(Join(fields, sep), sep) == fields
    decreases |fields|, |fields[0]|
  {
    var f := fields[0];
    if f == [] {
      if |fields| > 1 {
        SplitJoin(fields[1..], sep);
        assert Join(fields, sep) == [sep] + Join(fields[1..], sep);
        assert ([sep] + Join(fields[1..], sep))[1..] == Join(fields[1..], sep);
      }
    } else {
      NoSepInTail(f, sep);
      var tail := [f[1..]] + fields[1..];
      assert forall i :: 1 <= i < |tail| ==> tail[i] == fields[i];
      SplitJoin(tail, sep);
      JoinHeadChar(fields, sep);
      SplitCons(f[0], Join(tail, sep), sep);
      assert [f[0]] + f[1..] == f;
    }
  }
}

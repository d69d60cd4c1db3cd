/**
 * The JavaScript string built-ins the article table relies on:
 * `String.prototype.split(',')`, `String.prototype.trim()` and
 * `Array.prototype.join(separator)`.
 */
module StringMethods {
  import opened Model

  /**
   * The characters `trim` removes. JavaScript's set also holds the Unicode
   * space separators and line terminators; this model keeps the ASCII ones
   * plus no-break space and the byte-order mark. No comma is whitespace.
   */
  predicate IsWhitespace(c: char)
  {
    c == ' ' || c == '\t' || c == '\n' || c == '\r' || c == '\U{B}' || c == '\U{C}'
    || c == '\U{A0}' || c == '\U{FEFF}'
  }

  /** Every character of `s` is whitespace. */
  predicate AllWhitespace(s: JsString)
  {
    forall i :: 0 <= i < |s| ==> IsWhitespace(s[i])
  }

  /** `s` without its leading whitespace. */
  function TrimStart(s: JsString): (r: JsString)
    ensures |r| <= |s|
    ensures r != [] ==> !IsWhitespace(r[0])
  {
    if s != [] && IsWhitespace(s[0]) then TrimStart(s[1..]) else s
  }

  /** `s` without its trailing whitespace. */
  function TrimEnd(s: JsString): (r: JsString)
    ensures |r| <= |s| && r == s[..|r|]
    ensures AllWhitespace(s[|r|..])
    ensures r != [] ==> !IsWhitespace(r[|r| - 1])
  {
    if s != [] && IsWhitespace(s[|s| - 1]) then
      var init := s[..|s| - 1];
      var r := TrimEnd(init);
      assert s[|r|..] == init[|r|..] + [s[|s| - 1]];
      r
    else
      assert s[|s|..] == [];
      s
  }

  /** `s.trim()`: `s` without leading and trailing whitespace. */
  function Trim(s: JsString): (r: JsString)
    ensures |r| <= |s|
    ensures r != [] ==> !IsWhitespace(r[0]) && !IsWhitespace(r[|r| - 1])
  {
    TrimEnd(TrimStart(s))
  }

  /** `s.split(',')`: the pieces between commas; the empty string splits into one empty piece. */
  function Split(s: JsString): (parts: seq<JsString>)
    ensures |parts| >= 1
    ensures forall i :: 0 <= i < |parts| ==> ',' !in parts[i]
  {
    if s == [] then [[]]
    else if s[0] == ',' then [[]] + Split(s[1..])
    else
      var rest := Split(s[1..]);
      [[s[0]] + rest[0]] + rest[1..]
  }

  /** `parts.join(sep)`: the parts with `sep` between neighbours; no parts join to the empty string. */
  function Join(parts: seq<JsString>, sep: JsString): (s: JsString)
    ensures parts != [] ==> |parts[0]| <= |s| && s[..|parts[0]|] == parts[0]
  {
    if parts == [] then []
    else if |parts| == 1 then parts[0]
    else parts[0] + sep + Join(parts[1..], sep)
  }

  // Properties of trim.

  /** TrimStart removes a whitespace prefix and keeps the rest. */
  lemma {:induction false} TrimStartIsSuffix(s: JsString)
    ensures TrimStart(s) == s[|s| - |TrimStart(s)|..]
    ensures AllWhitespace(s[..|s| - |TrimStart(s)|])
  {
    if s != [] && IsWhitespace(s[0]) {
      TrimStartIsSuffix(s[1..]);
      assert s[1..][..|s| - 1 - |TrimStart(s)|] == s[1..|s| - |TrimStart(s)|];
    }
  }

  /** `s.trim()` is a contiguous part of `s` that leaves only whitespace on either side. */
  lemma TrimIsSlice(s: JsString)
    ensures exists i, j :: 0 <= i <= j <= |s| && Trim(s) == s[i..j] && AllWhitespace(s[..i]) && AllWhitespace(s[j..])
  {
    TrimStartIsSuffix(s);
    var t := TrimStart(s);
    var k := |s| - |t|;
    var m := k + |Trim(s)|;
    assert Trim(s) == t[..|Trim(s)|] == s[k..m];
    assert s[m..] == t[|Trim(s)|..];
  }

  /** Trimming a trimmed string changes nothing. */
  lemma TrimIdempotent(s: JsString)
    ensures Trim(Trim(s)) == Trim(s)
  {
    var r := Trim(s);
    assert TrimStart(r) == r;
    assert TrimEnd(r) == r;
  }

  /** Leading whitespace makes no difference to the trimmed result. */
  lemma TrimLeadingWhitespace(ws: JsString, s: JsString)
    requires AllWhitespace(ws)
    ensures Trim(ws + s) == Trim(s)
  {
    TrimStartDropsWhitespace(ws, s);
  }

  lemma {:induction false} TrimStartDropsWhitespace(ws: JsString, s: JsString)
    requires AllWhitespace(ws)
    ensures TrimStart(ws + s) == TrimStart(s)
  {
    if ws != [] {
      assert (ws + s)[1..] == ws[1..] + s;
      TrimStartDropsWhitespace(ws[1..], s);
    } else {
      assert ws + s == s;
    }
  }

  /** A string made only of whitespace trims to the empty string. */
  lemma TrimAllWhitespace(s: JsString)
    requires AllWhitespace(s)
    ensures Trim(s) == []
  {
    TrimLeadingWhitespace(s, []);
    assert s + [] == s;
  }

  /** Trimming removes characters and adds none. */
  lemma TrimKeepsNoComma(s: JsString)
    requires ',' !in s
    ensures ',' !in Trim(s)
  {
    TrimIsSlice(s);
    var i, j :| 0 <= i <= j <= |s| && Trim(s) == s[i..j];
  }

  // Properties of split and join.

  /** A string without commas is one piece. */
  lemma {:induction false} SplitNoComma(s: JsString)
    requires ',' !in s
    ensures Split(s) == [s]
  {
    if s != [] {
      SplitNoComma(s[1..]);
      assert [s[0]] + s[1..] == s;
    }
  }

  /** Splitting a string one character at a time: a comma starts a new piece, anything else extends the first. */
  lemma SplitCons(c: char, t: JsString)
    ensures c == ',' ==> Split([c] + t) == [[]] + Split(t)
    ensures c != ',' ==> Split([c] + t) == [[c] + Split(t)[0]] + Split(t)[1..]
  {
    assert ([c] + t)[0] == c && ([c] + t)[1..] == t;
  }

  /** Extending the first piece of a list of pieces commutes with appending more pieces. */
  lemma ExtendFirstPiece(c: char, x: seq<JsString>, y: seq<JsString>)
    requires |x| >= 1
    ensures [[c] + (x + y)[0]] + (x + y)[1..] == ([[c] + x[0]] + x[1..]) + y
  {
    assert (x + y)[0] == x[0];
    assert (x + y)[1..] == x[1..] + y;
  }

  /** Splitting at a comma concatenates the splits of the two sides. */
  lemma {:induction false} SplitAtComma(a: JsString, b: JsString)
    ensures Split(a + [','] + b) == Split(a) + Split(b)
  {
    if a == [] {
      assert a + [','] + b == [','] + b;
      SplitCons(',', b);
    } else {
      var c, t := a[0], a[1..];
      assert a == [c] + t;
      assert a + [','] + b == [c] + (t + [','] + b);
      SplitAtComma(t, b);
      SplitCons(c, t);
      SplitCons(c, t + [','] + b);
      if c != ',' {
        ExtendFirstPiece(c, Split(t), Split(b));
      }
    }
  }

  /** Joining the pieces with ',' gives the split string back. */
  lemma {:induction false} JoinSplit(s: JsString)
    ensures Join(Split(s), [',']) == s
  {
    if s == [] {
    } else if s[0] == ',' {
      JoinSplit(s[1..]);
      assert s == [','] + s[1..];
    } else {
      var rest := Split(s[1..]);
      JoinSplit(s[1..]);
      assert s == [s[0]] + s[1..];
      if |rest| == 1 {
        assert Split(s) == [[s[0]] + rest[0]];
      } else {
        var parts := Split(s);
        assert parts[1..] == rest[1..];
        assert Join(rest, [',']) == rest[0] + [','] + Join(rest[1..], [',']);
      }
    }
  }

  /** Splitting a ','-join of comma-free pieces gives the pieces back. */
  lemma {:induction false} SplitJoin(parts: seq<JsString>)
    requires parts != []
    requires forall i :: 0 <= i < |parts| ==> ',' !in parts[i]
    ensures Split(Join(parts, [','])) == parts
  {
    if |parts| == 1 {
      SplitNoComma(parts[0]);
    } else {
      SplitJoin(parts[1..]);
      SplitNoComma(parts[0]);
      SplitAtComma(parts[0], Join(parts[1..], [',']));
      assert parts == [parts[0]] + parts[1..];
    }
  }

  /** Appending one more part to a nonempty list appends the separator and the part. */
  lemma {:induction false} JoinSnoc(parts: seq<JsString>, p: JsString, sep: JsString)
    requires parts != []
    ensures Join(parts + [p], sep) == Join(parts, sep) + sep + p
  {
    if |parts| == 1 {
      assert parts + [p] == [parts[0], p];
    } else {
      assert (parts + [p])[1..] == parts[1..] + [p];
      JoinSnoc(parts[1..], p, sep);
    }
  }
}

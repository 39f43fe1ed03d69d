/** The constant formatter ReadTValue of unlua/Source.cpp: strings are
    quoted (or left raw when they name a global), numbers are the fixed
    decimal text of `std::to_string` with trailing zeros cut off. */
module Format {

  /** A constant-pool entry of one of the two tags ReadTValue handles.  A
      number carries the text `std::to_string(double)` produced for it; that
      rendering belongs to the C++ library and is taken as given. */
  datatype Const = Number(text: string) | Str(s: string)

  predicate HasNonZero(s: string)
  {
    exists j :: 0 <= j < |s| && s[j] != '0'
  }

  predicate AllZeros(s: string)
  {
    forall j :: 0 <= j < |s| ==> s[j] == '0'
  }

  /** `find_last_not_of('0')`, on a string where it finds something. */
  function LastNotZero(s: string): (n: nat)
    requires HasNonZero(s)
    ensures n < |s| && s[n] != '0'
    ensures forall j :: n < j < |s| ==> s[j] == '0'
    decreases |s|
  {
    if s[|s| - 1] != '0' then
      |s| - 1
    else
      var init := s[..|s| - 1];
      assert HasNonZero(init) by {
        var j :| 0 <= j < |s| && s[j] != '0';
        assert init[j] == s[j];
      }
      LastNotZero(init)
  }

  /** `find('.')`; the result `|s|` stands for `npos` (no dot). */
  function FindDot(s: string): (d: nat)
    ensures d <= |s|
    ensures d < |s| ==> s[d] == '.'
    ensures forall j :: 0 <= j < d ==> s[j] != '.'
  {
    if s == [] || s[0] == '.' then 0 else 1 + FindDot(s[1..])
  }

  /** The trimming at lines 57-60: cut everything after the last non-'0'
      character, and that character too when it is the first '.'.  Either
      the result ends just before the first '.', which only zeros follow, or
      it ends with a character that is neither '0' nor the first '.', and
      only zeros follow it; exactly one text meets this. */
  function TrimZeros(s: string): (r: string)
    requires HasNonZero(s)
    ensures |r| <= |s| && r == s[..|r|]
    ensures || (|r| == FindDot(s) < |s| && AllZeros(s[|r| + 1..]))
            || (0 < |r| && r[|r| - 1] != '0' && |r| - 1 != FindDot(s) && AllZeros(s[|r|..]))
  {
    var last := LastNotZero(s);
    var offset := if last == FindDot(s) then 0 else 1;
    s[..last + offset]
  }

  /** On fixed decimal text (it holds a '.'): the kept text still holds the
      dot exactly when some digit after the dot is not '0', and then it has
      no trailing '0'; otherwise it is the integer part before the dot. */
  lemma {:induction false} TrimFixedDecimal(s: string)
    requires '.' in s
    ensures HasNonZero(s)
    ensures '.' in TrimZeros(s) ==> TrimZeros(s)[|TrimZeros(s)| - 1] != '0'
    ensures '.' !in TrimZeros(s) <==> AllZeros(s[FindDot(s) + 1..])
    ensures '.' !in TrimZeros(s) ==> TrimZeros(s) == s[..FindDot(s)]
  {
    var j :| 0 <= j < |s| && s[j] == '.';
    assert s[j] != '0';
    var r := TrimZeros(s);
    var d := FindDot(s);
    var l := LastNotZero(s);
    assert d < |s|;
    if l == d {
      assert r == s[..d];
      assert forall i :: 0 <= i < d ==> r[i] != '.';
      assert '.' !in r;
      assert AllZeros(s[d + 1..]);
    } else {
      assert r == s[..l + 1];
      assert l > d;
      assert r[d] == '.';
      assert '.' in r;
      assert !AllZeros(s[d + 1..]) by { assert s[d + 1..][l - d - 1] == s[l]; }
    }
  }

  /** `std::to_string(10.0)` loses its whole fraction, dot included. */
  lemma {:induction false} TrimTen()
    ensures HasNonZero("10.000000") && TrimZeros("10.000000") == "10"
  {
    var t := "10.000000";
    assert t[0] == '1' && t[1] == '0' && t[2] == '.';
    TrimFixedDecimal(t);
    var d := FindDot(t);
    assert d == 2;
    assert forall i :: 3 <= i < |t| ==> t[i] == '0';
    assert AllZeros(t[d + 1..]);
    assert t[..2] == "10";
  }

  /** `std::to_string(0.5)` keeps its one significant decimal. */
  lemma {:induction false} TrimHalf()
    ensures HasNonZero("0.500000") && TrimZeros("0.500000") == "0.5"
  {
    var h := "0.500000";
    assert h[0] == '0' && h[1] == '.' && h[2] == '5';
    assert forall i :: 3 <= i < |h| ==> h[i] == '0';
    var l := LastNotZero(h);
    assert l == 2;
    assert FindDot(h) == 1;
    assert h[..3] == "0.5";
  }

  /** `std::string(svalue(k))`: a Lua string may hold '\0', but the
      constructor from a C string stops at the first one. */
  function CStr(s: string): (r: string)
    ensures r <= s && '\0' !in r
    ensures |r| < |s| ==> s[|r|] == '\0'
  {
    if s == [] || s[0] == '\0' then [] else [s[0]] + CStr(s[1..])
  }

  /** A string without '\0' passes through the C string unchanged. */
  lemma {:induction false} CStrWithoutNul(s: string)
    requires '\0' !in s
    ensures CStr(s) == s
  {
    if s != [] {
      assert '\0' !in s[1..] by { assert forall j :: 0 <= j < |s| - 1 ==> s[1..][j] == s[j + 1]; }
      CStrWithoutNul(s[1..]);
    }
  }

  /** ReadTValue: a raw string is its text up to the first '\0', any other
      string is that text between double quotes, without escaping; a number
      is a prefix of its fixed text (TrimZeros says which). */
  function ReadTValue(k: Const, raw: bool): (r: string)
    requires k.Number? ==> HasNonZero(k.text)
    ensures k.Str? && raw ==> r <= k.s && '\0' !in r && (|r| < |k.s| ==> k.s[|r|] == '\0')
    ensures k.Str? && !raw ==> 2 <= |r| && r[0] == '"' && r[|r| - 1] == '"' && r[1..|r| - 1] == CStr(k.s)
    ensures k.Number? ==> r <= k.text
  {
    match k
    case Number(text) => TrimZeros(text)
    case Str(s) => if raw then CStr(s) else "\"" + CStr(s) + "\""
  }
}

/** The string operations that the calculator chains together when it
    reads comma-separated input: `split(',')`, `trim()`, dropping empty
    tokens, and `join(', ')`. */
module Text {

  /** The code points ECMAScript's `String.prototype.trim` removes: the
      WhiteSpace (TAB, VT, FF, SP, NBSP, ZWNBSP and the Zs category) and
      LineTerminator (LF, CR, LS, PS) characters. */
  predicate IsWhitespace(c: char) {
    || c == '\t' || c == '\n' || c == '\U{000B}' || c == '\U{000C}' || c == '\r'
    || c == ' ' || c == '\U{00A0}' || c == '\U{1680}'
    || ('\U{2000}' <= c <= '\U{200A}')
    || c == '\U{2028}' || c == '\U{2029}' || c == '\U{202F}' || c == '\U{205F}'
    || c == '\U{3000}' || c == '\U{FEFF}'
  }

  /** Neither end of `s` is whitespace. */
  predicate IsTrimmed(s: string) {
    s == [] || (!IsWhitespace(s[0]) && !IsWhitespace(s[|s| - 1]))
  }

  function TrimStart(s: string): (r: string)
    ensures r == [] || !IsWhitespace(r[0])
    ensures |r| <= |s| && r == s[|s| - |r|..]
  {
    if s != [] && IsWhitespace(s[0]) then TrimStart(s[1..]) else s
  }

  function TrimEnd(s: string): (r: string)
    ensures r == [] || !IsWhitespace(r[|r| - 1])
    ensures |r| <= |s| && r == s[..|r|]
  {
    if s != [] && IsWhitespace(s[|s| - 1]) then TrimEnd(s[..|s| - 1]) else s
  }

  /** `s.trim()`: the result has no whitespace at either end and only
      characters of `s`. */
  function Trim(s: string): (r: string)
    ensures IsTrimmed(r)
    ensures forall c :: c in r ==> c in s
  {
    var t := TrimStart(s);
    var r := TrimEnd(t);
    assert forall c :: c in r ==> c in t;
    r
  }

  lemma TrimOfTrimmed(t: string)
    requires IsTrimmed(t)
    ensures Trim(t) == t
  {
  }

  lemma TrimLeadingSpace(t: string)
    requires IsTrimmed(t)
    ensures Trim([' '] + t) == t
  {
    assert ([' '] + t)[1..] == t;
    assert TrimStart([' '] + t) == TrimStart(t);
  }

  /** `s.split(sep)` for a one-character separator: always at least one
      piece, and no piece contains the separator. */
  function Split(s: string, sep: char): (r: seq<string>)
    ensures |r| >= 1
    ensures forall i :: 0 <= i < |r| ==> sep !in r[i]
  {
    if s == [] then [[]]
    else
      var rest := Split(s[1..], sep);
      if s[0] == sep then [[]] + rest
      else [[s[0]] + rest[0]] + rest[1..]
  }

  /** `parts.join(sep)`. */
  function Join(parts: seq<string>, sep: string): string {
    if parts == [] then []
    else if |parts| == 1 then parts[0]
    else parts[0] + sep + Join(parts[1..], sep)
  }

  lemma {:induction false} SplitPrefix(p: string, tail: string, sep: char)
    requires sep !in p
    ensures Split(p + tail, sep) == [p + Split(tail, sep)[0]] + Split(tail, sep)[1..]
  {
    if p != [] {
      assert (p + tail)[1..] == p[1..] + tail;
      SplitPrefix(p[1..], tail, sep);
      assert [p[0]] + (p[1..] + Split(tail, sep)[0]) == p + Split(tail, sep)[0];
    } else {
      assert p + tail == tail;
      assert p + Split(tail, sep)[0] == Split(tail, sep)[0];
      assert Split(tail, sep) == [Split(tail, sep)[0]] + Split(tail, sep)[1..];
    }
  }

  /** Splitting a joined list gives the list back when no part holds the
      separator. */
  lemma {:induction false} SplitJoin(parts: seq<string>, sep: char)
    requires |parts| >= 1
    requires forall i :: 0 <= i < |parts| ==> sep !in parts[i]
    ensures Split(Join(parts, [sep]), sep) == parts
  {
    if |parts| == 1 {
      SplitPrefix(parts[0], [], sep);
      assert parts[0] + [] == parts[0];
    } else {
      var j := Join(parts[1..], [sep]);
      SplitJoin(parts[1..], sep);
      assert ([sep] + j)[1..] == j;
      assert Split([sep] + j, sep) == [[]] + parts[1..];
      assert parts[0] + [sep] + j == parts[0] + ([sep] + j);
      SplitPrefix(parts[0], [sep] + j, sep);
      assert parts[0] + [] == parts[0];
      assert parts == [parts[0]] + parts[1..];
    }
  }

  function TrimAll(parts: seq<string>): (r: seq<string>)
    ensures |r| == |parts|
    ensures forall i :: 0 <= i < |r| ==> r[i] == Trim(parts[i])
  {
    seq(|parts|, i requires 0 <= i < |parts| => Trim(parts[i]))
  }

  /** `filter(s => s !== '')`, order preserved. */
  function NonEmpty(parts: seq<string>): (r: seq<string>)
    ensures |r| <= |parts|
    ensures forall i :: 0 <= i < |r| ==> r[i] != []
    ensures forall s :: s in r <==> s in parts && s != []
  {
    if parts == [] then []
    else (if parts[0] == [] then [] else [parts[0]]) + NonEmpty(parts[1..])
  }

  lemma {:induction false} NonEmptyKeepsAll(parts: seq<string>)
    requires forall i :: 0 <= i < |parts| ==> parts[i] != []
    ensures NonEmpty(parts) == parts
  {
    if parts != [] {
      NonEmptyKeepsAll(parts[1..]);
    }
  }

  /** The trimmed, non-empty, comma-separated tokens of `s`, in order:
      `s.split(',').map(t => t.trim()).filter(t => t !== '')`. */
  function CommaTokens(s: string): seq<string> {
    NonEmpty(TrimAll(Split(s, ',')))
  }

  /** A token as `CommaTokens` produces it. */
  predicate IsToken(t: string) {
    t != [] && IsTrimmed(t) && ',' !in t
  }

  lemma {:induction false} TrimAllTokens(parts: seq<string>)
    requires forall i :: 0 <= i < |parts| ==> ',' !in parts[i]
    ensures forall i :: 0 <= i < |parts| ==> IsTrimmed(TrimAll(parts)[i]) && ',' !in TrimAll(parts)[i]
  {
    forall i | 0 <= i < |parts|
      ensures IsTrimmed(TrimAll(parts)[i]) && ',' !in TrimAll(parts)[i]
    {
      assert TrimAll(parts)[i] == Trim(parts[i]);
      assert ',' !in parts[i];
    }
  }

  lemma {:induction false} NonEmptyTokens(parts: seq<string>)
    requires forall i :: 0 <= i < |parts| ==> IsTrimmed(parts[i]) && ',' !in parts[i]
    ensures forall i :: 0 <= i < |NonEmpty(parts)| ==> IsToken(NonEmpty(parts)[i])
  {
    if parts != [] {
      NonEmptyTokens(parts[1..]);
    }
  }

  lemma CommaTokensAreTokens(s: string)
    ensures forall i :: 0 <= i < |CommaTokens(s)| ==> IsToken(CommaTokens(s)[i])
  {
    TrimAllTokens(Split(s, ','));
    NonEmptyTokens(TrimAll(Split(s, ',')));
  }

  function Spaced(ts: seq<string>): (r: seq<string>)
    ensures |r| == |ts|
    ensures forall i :: 0 <= i < |r| ==> r[i] == [' '] + ts[i]
  {
    if ts == [] then [] else [[' '] + ts[0]] + Spaced(ts[1..])
  }

  lemma {:induction false} JoinSpaced(ts: seq<string>)
    requires |ts| >= 1
    ensures Join(Spaced(ts), [',']) == [' '] + Join(ts, ", ")
  {
    if |ts| > 1 {
      JoinSpaced(ts[1..]);
      assert Spaced(ts)[1..] == Spaced(ts[1..]);
      CommaSpace([' '] + ts[0], Join(ts[1..], ", "));
    }
  }

  lemma CommaSpace(a: string, j: string)
    ensures a + [','] + ([' '] + j) == a + ", " + j
  {
  }

  lemma JoinAsSpaced(ts: seq<string>)
    requires |ts| >= 1
    ensures Join([ts[0]] + Spaced(ts[1..]), [',']) == Join(ts, ", ")
  {
    var spaced := [ts[0]] + Spaced(ts[1..]);
    if |ts| > 1 {
      JoinSpaced(ts[1..]);
      assert spaced[1..] == Spaced(ts[1..]);
      CommaSpace(ts[0], Join(ts[1..], ", "));
    }
  }

  lemma SpacedHasNoComma(ts: seq<string>)
    requires |ts| >= 1
    requires forall i :: 0 <= i < |ts| ==> ',' !in ts[i]
    ensures forall i :: 0 <= i < |ts| ==> ',' !in ([ts[0]] + Spaced(ts[1..]))[i]
  {
    var spaced := [ts[0]] + Spaced(ts[1..]);
    forall i | 0 <= i < |ts|
      ensures ',' !in spaced[i]
    {
      if i > 0 {
        assert spaced[i] == [' '] + ts[i];
      }
    }
  }

  lemma TrimAllSpaced(ts: seq<string>)
    requires |ts| >= 1
    requires forall i :: 0 <= i < |ts| ==> IsToken(ts[i])
    ensures TrimAll([ts[0]] + Spaced(ts[1..])) == ts
  {
    var spaced := [ts[0]] + Spaced(ts[1..]);
    var t := TrimAll(spaced);
    forall i | 0 <= i < |t|
      ensures t[i] == ts[i]
    {
      if i == 0 {
        TrimOfTrimmed(ts[0]);
      } else {
        assert spaced[i] == Spaced(ts[1..])[i - 1] == [' '] + ts[i];
        TrimLeadingSpace(ts[i]);
      }
    }
  }

  /** Re-tokenising a list of tokens joined with ", " returns the list:
      serialising what was parsed and parsing it again is a fixed point. */
  lemma CommaTokensOfJoin(ts: seq<string>)
    requires forall i :: 0 <= i < |ts| ==> IsToken(ts[i])
    ensures CommaTokens(Join(ts, ", ")) == ts
  {
    if ts == [] {
      assert Join(ts, ", ") == [];
      assert Split([], ',') == [[]];
      assert TrimAll([[]]) == [[]];
      assert NonEmpty([[]]) == [];
    } else {
      var spaced := [ts[0]] + Spaced(ts[1..]);
      JoinAsSpaced(ts);
      SpacedHasNoComma(ts);
      SplitJoin(spaced, ',');
      TrimAllSpaced(ts);
      NonEmptyKeepsAll(ts);
      calc {
        CommaTokens(Join(ts, ", "));
        NonEmpty(TrimAll(Split(Join(ts, ", "), ',')));
        NonEmpty(TrimAll(Split(Join(spaced, [',']), ',')));
        NonEmpty(TrimAll(spaced));
        NonEmpty(ts);
        ts;
      }
    }
  }
}

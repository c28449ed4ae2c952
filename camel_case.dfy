/** The camel-case username derivation of lib/auth.js (`toCamelCase`),
    step by step as the source chains it:
    `name.toLowerCase().replace(/[^a-zA-Z0-9 ]/g, "").split(" ")
         .filter(Boolean).map(capitalise all but the first).join("")`. */
module CamelCase {
  import opened Text
  import opened Lists

  /** The characters that `.replace(/[^a-zA-Z0-9 ]/g, "")` keeps. */
  predicate KeptByStrip(c: char) { IsAlnum(c) || c == ' ' }

  predicate NotSpace(c: char) { c != ' ' }

  /** `.filter(Boolean)` on strings keeps the non-empty ones. */
  predicate NonEmptyWord(w: string) { w != [] }

  /** `.split(" ")`: the pieces between single spaces, empty pieces included. */
  function SplitOnSpace(s: string): (r: seq<string>)
    ensures |r| >= 1
    ensures forall k, j :: 0 <= k < |r| && 0 <= j < |r[k]| ==> r[k][j] != ' ' && r[k][j] in s
  {
    if s == [] then [[]]
    else
      var rest := SplitOnSpace(s[1..]);
      if s[0] == ' ' then [[]] + rest else [[s[0]] + rest[0]] + rest[1..]
  }

  function Concat(ws: seq<string>): string {
    if ws == [] then [] else ws[0] + Concat(ws[1..])
  }

  /** `word[0].toUpperCase() + word.slice(1)`. */
  function Capitalize(w: string): string
    requires w != []
  {
    [ToUpperChar(w[0])] + w[1..]
  }

  /** Joins words, capitalising each. */
  function CapitalizedJoin(ws: seq<string>): (r: string)
    requires forall k :: 0 <= k < |ws| ==> ws[k] != []
    ensures |r| == |Concat(ws)|
  {
    if ws == [] then [] else Capitalize(ws[0]) + CapitalizedJoin(ws[1..])
  }

  /** The `.map(...)` and `.join("")` steps: the first word as it is, every
      later word capitalised. */
  function CamelJoin(ws: seq<string>): string
    requires forall k :: 0 <= k < |ws| ==> ws[k] != []
  {
    if ws == [] then [] else ws[0] + CapitalizedJoin(ws[1..])
  }

  /** The non-empty space-separated words of the lower-cased, stripped name. */
  function Words(name: string): (ws: seq<string>)
    ensures forall k :: 0 <= k < |ws| ==> ws[k] != []
  {
    Filter(SplitOnSpace(Filter(LowerAscii(name), KeptByStrip)), NonEmptyWord)
  }

  function ToCamelCase(name: string): string {
    CamelJoin(Words(name))
  }

  // ---------------------------------------------------------------------
  // Lemmas

  lemma {:induction false} ConcatAppend(a: seq<string>, b: seq<string>)
    ensures Concat(a + b) == Concat(a) + Concat(b)
  {
    if a == [] {
      assert a + b == b;
    } else {
      assert (a + b)[1..] == a[1..] + b;
      ConcatAppend(a[1..], b);
    }
  }

  /** Joining the pieces of `.split(" ")` gives the string without spaces. */
  lemma {:induction false} ConcatSplit(s: string)
    ensures Concat(SplitOnSpace(s)) == Filter(s, NotSpace)
  {
    if s != [] {
      ConcatSplit(s[1..]);
      var rest := SplitOnSpace(s[1..]);
      if s[0] != ' ' {
        var r := SplitOnSpace(s);
        assert r[0] == [s[0]] + rest[0] && r[1..] == rest[1..];
        assert Concat(rest) == rest[0] + Concat(rest[1..]);
      }
    }
  }

  /** Dropping empty words does not change their concatenation. */
  lemma {:induction false} ConcatNonEmpty(ws: seq<string>)
    ensures Concat(Filter(ws, NonEmptyWord)) == Concat(ws)
  {
    if ws != [] {
      ConcatNonEmpty(ws[1..]);
      var head := if NonEmptyWord(ws[0]) then [ws[0]] else [];
      ConcatAppend(head, Filter(ws[1..], NonEmptyWord));
      assert Concat(ws) == ws[0] + Concat(ws[1..]);
    }
  }

  /** Stripping then removing spaces keeps exactly the letters and digits. */
  lemma {:induction false} StripThenNoSpace(s: string)
    ensures Filter(Filter(s, KeptByStrip), NotSpace) == Filter(s, IsAlnum)
  {
    if s != [] {
      StripThenNoSpace(s[1..]);
      var t := Filter(s, KeptByStrip);
      var head := if KeptByStrip(s[0]) then [s[0]] else [];
      assert t == head + Filter(s[1..], KeptByStrip);
      FilterAppend(head, Filter(s[1..], KeptByStrip), NotSpace);
    }
  }

  lemma LowerAsciiAppend(a: string, b: string)
    ensures LowerAscii(a + b) == LowerAscii(a) + LowerAscii(b)
  {
  }

  /** Lower-casing undoes the capitalisation of a lower-case word. */
  lemma {:induction false} LowerCapitalizedJoin(ws: seq<string>)
    requires forall k :: 0 <= k < |ws| ==> ws[k] != []
    requires forall k, j :: 0 <= k < |ws| && 0 <= j < |ws[k]| ==> IsLower(ws[k][j]) || IsDigit(ws[k][j])
    ensures LowerAscii(CapitalizedJoin(ws)) == Concat(ws)
  {
    if ws != [] {
      LowerCapitalizedJoin(ws[1..]);
      var w := ws[0];
      LowerAsciiAppend(Capitalize(w), CapitalizedJoin(ws[1..]));
      assert LowerAscii(Capitalize(w)) == w;
    }
  }

  /** Every word consists of lower-case letters and digits only. */
  lemma WordsLowerCase(name: string)
    ensures forall k, j :: 0 <= k < |Words(name)| && 0 <= j < |Words(name)[k]| ==>
      IsLower(Words(name)[k][j]) || IsDigit(Words(name)[k][j])
  {
    var stripped := Filter(LowerAscii(name), KeptByStrip);
    var pieces := SplitOnSpace(stripped);
    var ws := Words(name);
    forall k, j | 0 <= k < |ws| && 0 <= j < |ws[k]|
      ensures IsLower(ws[k][j]) || IsDigit(ws[k][j])
    {
      assert ws[k] in pieces;
      var c := ws[k][j];
      assert c in stripped && c != ' ';
      assert c in LowerAscii(name);
    }
  }

  /** The output, lower-cased, is exactly the letters and digits of the
      lower-cased input, in order. */
  lemma CamelCaseLetters(name: string)
    ensures LowerAscii(ToCamelCase(name)) == Filter(LowerAscii(name), IsAlnum)
  {
    var ws := Words(name);
    var stripped := Filter(LowerAscii(name), KeptByStrip);
    WordsLowerCase(name);
    if ws != [] {
      LowerCapitalizedJoin(ws[1..]);
      LowerAsciiAppend(ws[0], CapitalizedJoin(ws[1..]));
      assert LowerAscii(ws[0]) == ws[0];
    }
    calc {
      LowerAscii(ToCamelCase(name));
      Concat(ws);
      { ConcatNonEmpty(SplitOnSpace(stripped)); }
      Concat(SplitOnSpace(stripped));
      { ConcatSplit(stripped); }
      Filter(stripped, NotSpace);
      { StripThenNoSpace(LowerAscii(name)); }
      Filter(LowerAscii(name), IsAlnum);
    }
  }

  /** The output contains only ASCII letters and digits. */
  lemma CamelCaseAlnum(name: string)
    ensures forall i :: 0 <= i < |ToCamelCase(name)| ==> IsAlnum(ToCamelCase(name)[i])
  {
    var r := ToCamelCase(name);
    CamelCaseLetters(name);
    forall i | 0 <= i < |r| ensures IsAlnum(r[i]) {
      assert LowerAscii(r)[i] in Filter(LowerAscii(name), IsAlnum);
    }
  }

  /** A name with no letters or digits gives the empty username. */
  lemma CamelCaseEmpty(name: string)
    requires forall i :: 0 <= i < |name| ==> !IsAlnum(name[i])
    ensures ToCamelCase(name) == ""
  {
    CamelCaseLetters(name);
    var l := LowerAscii(name);
    FilterNone(l, IsAlnum);
    assert |LowerAscii(ToCamelCase(name))| == 0;
  }

  /** Where the `k`-th word starts in the joined output. */
  function Offset(ws: seq<string>, k: nat): nat
    requires k <= |ws|
  {
    |Concat(ws[..k])|
  }

  /** The `k`-th word starts after the first word and the `k - 1` words
      that follow it. */
  lemma OffsetSucc(ws: seq<string>, k: nat)
    requires 0 < k <= |ws|
    ensures Offset(ws, k) == |ws[0]| + Offset(ws[1..], k - 1)
  {
    var p := ws[..k];
    assert p[0] == ws[0];
    assert p[1..] == ws[1..][..k - 1];
  }

  lemma {:induction false} CapitalizedJoinAt(ws: seq<string>, k: nat, j: nat)
    requires forall i :: 0 <= i < |ws| ==> ws[i] != []
    requires k < |ws| && j < |ws[k]|
    ensures Offset(ws, k) + j < |CapitalizedJoin(ws)|
    ensures CapitalizedJoin(ws)[Offset(ws, k) + j] == if j == 0 then ToUpperChar(ws[k][0]) else ws[k][j]
  {
    var head := Capitalize(ws[0]);
    assert CapitalizedJoin(ws) == head + CapitalizedJoin(ws[1..]);
    if k == 0 {
      assert ws[..0] == [];
    } else {
      OffsetSucc(ws, k);
      CapitalizedJoinAt(ws[1..], k - 1, j);
    }
  }

  lemma CamelJoinAt(ws: seq<string>, k: nat, j: nat)
    requires forall i :: 0 <= i < |ws| ==> ws[i] != []
    requires k < |ws| && j < |ws[k]|
    ensures Offset(ws, k) + j < |CamelJoin(ws)|
    ensures CamelJoin(ws)[Offset(ws, k) + j] == if k > 0 && j == 0 then ToUpperChar(ws[k][j]) else ws[k][j]
  {
    assert CamelJoin(ws) == ws[0] + CapitalizedJoin(ws[1..]);
    if k == 0 {
      assert ws[..0] == [];
    } else {
      OffsetSucc(ws, k);
      CapitalizedJoinAt(ws[1..], k - 1, j);
    }
  }

  lemma CamelJoinLength(ws: seq<string>)
    requires forall i :: 0 <= i < |ws| ==> ws[i] != []
    ensures |CamelJoin(ws)| == Offset(ws, |ws|)
  {
    assert ws[..|ws|] == ws;
    if ws != [] {
      assert Concat(ws) == ws[0] + Concat(ws[1..]);
    }
  }

  /** Where every character of `CamelJoin(ws)`, and so of
      `ToCamelCase(name) == CamelJoin(Words(name))`, comes from: the `k`-th
      word occupies the output from `Offset(ws, k)`; the first word is copied
      unchanged, and in each later word only the first character is
      upper-cased. With `WordsLowerCase` (every word of a name is lower-case
      letters and digits) this says that the first word stays lower-case and
      that the only upper-case characters are the first letters of the later
      words. */
  predicate CamelCharAt(ws: seq<string>, k: nat, j: nat)
    requires forall i :: 0 <= i < |ws| ==> ws[i] != []
    requires k < |ws| && j < |ws[k]|
  {
    Offset(ws, k) + j < |CamelJoin(ws)| &&
    CamelJoin(ws)[Offset(ws, k) + j] == if k > 0 && j == 0 then ToUpperChar(ws[k][j]) else ws[k][j]
  }

  lemma CamelJoinShape(ws: seq<string>)
    requires forall i :: 0 <= i < |ws| ==> ws[i] != []
    ensures |CamelJoin(ws)| == Offset(ws, |ws|)
    ensures forall k: nat, j: nat :: k < |ws| && j < |ws[k]| ==> CamelCharAt(ws, k, j)
  {
    CamelJoinLength(ws);
    forall k: nat, j: nat | k < |ws| && j < |ws[k]|
      ensures CamelCharAt(ws, k, j)
    {
      CamelJoinAt(ws, k, j);
    }
  }

  /** The case of each character of a username: the `k`-th word of the name
      occupies `ToCamelCase(name)` from `Offset(Words(name), k)`; a character
      there is upper-case exactly when it starts a later word that begins
      with a letter, and every other character is a lower-case letter or a
      digit. */
  predicate CamelCaseAt(name: string, k: nat, j: nat)
    requires k < |Words(name)| && j < |Words(name)[k]|
  {
    var ws := Words(name);
    var p := Offset(ws, k) + j;
    p < |ToCamelCase(name)| &&
    (IsUpper(ToCamelCase(name)[p]) <==> k > 0 && j == 0 && IsLower(ws[k][0])) &&
    (!IsUpper(ToCamelCase(name)[p]) ==> IsLower(ToCamelCase(name)[p]) || IsDigit(ToCamelCase(name)[p]))
  }

  /** The first word of a username stays lower-case, and the only upper-case
      characters are the first letters of the later words. */
  lemma CamelCaseShape(name: string)
    ensures |ToCamelCase(name)| == Offset(Words(name), |Words(name)|)
    ensures forall k: nat, j: nat :: k < |Words(name)| && j < |Words(name)[k]| ==> CamelCaseAt(name, k, j)
  {
    var ws := Words(name);
    WordsLowerCase(name);
    CamelJoinShape(ws);
    forall k: nat, j: nat | k < |ws| && j < |ws[k]|
      ensures CamelCaseAt(name, k, j)
    {
      assert CamelCharAt(ws, k, j);
      assert IsLower(ws[k][j]) || IsDigit(ws[k][j]);
    }
  }
}

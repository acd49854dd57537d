/** Splitting at a separator, joining with one, and trimming: the text functions the other modules share. */
module Lines {
  /** The pieces between separators, in order; there is always at least one. */
  function Split<T(==)>(separator: T, s: seq<T>): (lines: seq<seq<T>>)
    ensures |lines| > 0
  {
    if s == [] then [[]] else Prepend(separator, s[0], Split(separator, s[1..]))
  }

  /** The pieces once `c` is put in front of them. */
  function Prepend<T(==)>(separator: T, c: T, lines: seq<seq<T>>): (r: seq<seq<T>>)
    requires |lines| > 0
    ensures |r| > 0
  {
    if c == separator then [[]] + lines else [[c] + lines[0]] + lines[1..]
  }

  lemma {:induction false} SplitOneLine<T>(separator: T, line: seq<T>)
    requires separator !in line
    ensures Split(separator, line) == [line]
  {
    if line != [] {
      SplitOneLine(separator, line[1..]);
      assert line == [line[0]] + line[1..];
    }
  }

  lemma PrependConcat<T>(separator: T, c: T, lines: seq<seq<T>>, more: seq<seq<T>>)
    requires |lines| > 0
    ensures Prepend(separator, c, lines + more) == Prepend(separator, c, lines) + more
  {
  }

  lemma {:induction false} SplitAtSeparator<T>(separator: T, whole: seq<T>, a: seq<T>, b: seq<T>)
    requires whole == a + [separator] + b
    ensures Split(separator, whole) == Split(separator, a) + Split(separator, b)
  {
    if a == [] {
      assert whole[1..] == b;
    } else {
      SplitAtSeparator(separator, whole[1..], a[1..], b);
      PrependConcat(separator, a[0], Split(separator, a[1..]), Split(separator, b));
    }
  }

  lemma SplitLastLine<T>(separator: T, whole: seq<T>, a: seq<T>, line: seq<T>)
    requires whole == a + [separator] + line && separator !in line
    ensures Split(separator, whole) == Split(separator, a) + [line]
  {
    SplitOneLine(separator, line);
    SplitAtSeparator(separator, whole, a, line);
  }

  lemma {:induction false} NoSeparatorInLines<T>(separator: T, s: seq<T>)
    ensures forall line | line in Split(separator, s) :: separator !in line
  {
    if s != [] {
      NoSeparatorInLines(separator, s[1..]);
      assert Split(separator, s[1..])[0] in Split(separator, s[1..]);
    }
  }

  function Join(parts: seq<string>, separator: string): string {
    if parts == [] then ""
    else if |parts| == 1 then parts[0]
    else parts[0] + separator + Join(parts[1..], separator)
  }

  /** Joining is undone by splitting, when no piece holds the separator. */
  lemma {:induction false} SplitJoin(parts: seq<string>, separator: char)
    requires parts != [] && forall p | p in parts :: separator !in p
    ensures Split(separator, Join(parts, [separator])) == parts
  {
    SplitOneLine(separator, parts[0]);
    if |parts| > 1 {
      SplitJoin(parts[1..], separator);
      SplitAtSeparator(separator, Join(parts, [separator]), parts[0], Join(parts[1..], [separator]));
    }
  }

  // ----- White space ------------------------------------------------------------------

  /** unicode.IsSpace. */
  predicate IsSpace(c: char) {
    c in {'\t', '\n', '\U{000B}', '\U{000C}', '\r', ' ', '\U{0085}', '\U{00A0}', '\U{1680}', '\U{2028}', '\U{2029}',
          '\U{202F}', '\U{205F}', '\U{3000}'} || '\U{2000}' <= c <= '\U{200A}'
  }

  /** Without the leading and trailing characters of `cut`. */
  function Trim(s: string, cut: char -> bool): (t: string)
    ensures |t| <= |s|
    ensures t == "" || (!cut(t[0]) && !cut(t[|t| - 1]))
    ensures s == "" || (!cut(s[0]) && !cut(s[|s| - 1])) ==> t == s
    ensures forall c | c in t :: c in s
    decreases |s|
  {
    if s == "" then s
    else if cut(s[0]) then Trim(s[1..], cut)
    else if cut(s[|s| - 1]) then Trim(s[..|s| - 1], cut)
    else s
  }

  function TrimSpace(s: string): string {
    Trim(s, IsSpace)
  }

  /** `inner` is `whole` without the characters of `cut` at its ends, and neither begins nor ends with one itself. */
  ghost predicate Stripped(whole: string, inner: string, cut: char -> bool) {
    exists before, after :: Frames(whole, before, inner, after, cut)
  }

  ghost predicate Frames(whole: string, before: string, inner: string, after: string, cut: char -> bool) {
    && whole == before + inner + after
    && (forall c | c in before :: cut(c)) && (forall c | c in after :: cut(c))
    && (inner != "" ==> !cut(inner[0]) && !cut(inner[|inner| - 1]))
  }

  lemma {:induction false} TrimFrames(s: string, cut: char -> bool) returns (before: string, after: string)
    ensures Frames(s, before, Trim(s, cut), after, cut)
    decreases |s|
  {
    before, after := "", "";
    if s == "" {
    } else if cut(s[0]) {
      before, after := TrimFrames(s[1..], cut);
      before := [s[0]] + before;
      assert s == [s[0]] + s[1..];
    } else if cut(s[|s| - 1]) {
      before, after := TrimFrames(s[..|s| - 1], cut);
      after := after + [s[|s| - 1]];
      assert s == s[..|s| - 1] + [s[|s| - 1]];
    }
  }

  lemma {:induction false} FramedIsTrimmed(s: string, before: string, inner: string, after: string, cut: char -> bool)
    requires Frames(s, before, inner, after, cut)
    ensures Trim(s, cut) == inner
    decreases |s|
  {
    if before != "" {
      assert s[0] == before[0] && s[1..] == before[1..] + inner + after;
      FramedIsTrimmed(s[1..], before[1..], inner, after, cut);
    } else if after != "" {
      if inner == "" {
        assert s[0] == after[0] && s[1..] == "" + inner + after[1..];
        FramedIsTrimmed(s[1..], "", inner, after[1..], cut);
      } else {
        var rest := after[..|after| - 1];
        assert s[|s| - 1] == after[|after| - 1] && s[..|s| - 1] == "" + inner + rest;
        FramedIsTrimmed(s[..|s| - 1], "", inner, rest, cut);
      }
    } else {
      assert s == inner;
    }
  }

  /** Trimming takes what is to be cut off both ends, and nothing else. */
  lemma TrimExactly(s: string, cut: char -> bool, t: string)
    ensures Trim(s, cut) == t <==> Stripped(s, t, cut)
  {
    var before, after := TrimFrames(s, cut);
    if before', after' :| Frames(s, before', t, after', cut) {
      FramedIsTrimmed(s, before', t, after', cut);
    }
  }

  /** The white space of Unicode, by code points. */
  lemma SpacesExactly(c: char)
    ensures IsSpace(c) <==>
              || 0x9 <= c as int <= 0xD || c as int == 0x20 || c as int == 0x85 || c as int == 0xA0
              || c as int == 0x1680 || 0x2000 <= c as int <= 0x200A || c as int == 0x2028 || c as int == 0x2029
              || c as int == 0x202F || c as int == 0x205F || c as int == 0x3000
  {
  }
}

/** Escaping for the chat service's MarkdownV2 text mode: each of eighteen
    reserved characters gets a backslash in front of it.  The source does it
    with one `replace` per reserved character; since the backslash itself is
    not reserved, the chain amounts to one per-character substitution. */
module Markdown {
  import opened Text

  /** The reserved characters, in the order the source replaces them. */
  const Special: seq<char> :=
    ['_', '*', '`', '[', ']', '(', ')', '~', '>', '#', '+', '-', '=', '|', '{', '}', '.', '!']

  predicate IsSpecial(c: char) {
    c in Special
  }

  /** What one character becomes once the characters of `cs` are escaped. */
  function EscapeCharWith(c: char, cs: seq<char>): string {
    if c in cs then ['\\', c] else [c]
  }

  /** Every character of `cs` in `s` prefixed with a backslash. */
  function EscapeWith(s: string, cs: seq<char>): string {
    if s == [] then [] else EscapeCharWith(s[0], cs) + EscapeWith(s[1..], cs)
  }

  /** The escaped form of a text, one character at a time. */
  function Escaped(s: string): string {
    EscapeWith(s, Special)
  }

  lemma {:induction false} EscapeWithAppend(a: string, b: string, cs: seq<char>)
    ensures EscapeWith(a + b, cs) == EscapeWith(a, cs) + EscapeWith(b, cs)
  {
    if a == [] {
      assert a + b == b;
    } else {
      assert (a + b)[0] == a[0] && (a + b)[1..] == a[1..] + b;
      EscapeWithAppend(a[1..], b, cs);
      AppendAssoc(EscapeCharWith(a[0], cs), EscapeWith(a[1..], cs), EscapeWith(b, cs));
    }
  }

  lemma {:induction false} EscapeWithNothing(s: string)
    ensures EscapeWith(s, []) == s
  {
    if s != [] {
      EscapeWithNothing(s[1..]);
    }
  }

  /** One more `replace` in the chain escapes one more character, provided that
      character is new and is not the backslash the earlier steps inserted. */
  lemma {:induction false} ReplaceExtendsEscape(s: string, cs: seq<char>, c: char)
    requires c !in cs && c != '\\'
    ensures ReplaceChar(EscapeWith(s, cs), c, ['\\', c]) == EscapeWith(s, cs + [c])
  {
    if s != [] {
      ReplaceCharAppend(EscapeCharWith(s[0], cs), EscapeWith(s[1..], cs), c, ['\\', c]);
      ReplaceExtendsEscape(s[1..], cs, c);
      var piece := EscapeCharWith(s[0], cs);
      if s[0] in cs {
        assert piece == ['\\', s[0]];
        assert ReplaceChar(piece, c, ['\\', c]) == ['\\'] + ReplaceChar([s[0]], c, ['\\', c]);
      }
    }
  }

  /** No reserved character is listed twice, and the backslash is not one. */
  lemma SpecialIsNew(k: nat)
    requires k < |Special|
    ensures Special[k] !in Special[..k] && Special[k] != '\\'
  {
  }

  /** `escape_markdown`: the empty text stays empty; otherwise each reserved
      character is replaced in turn. */
  method EscapeMarkdown(text: string) returns (r: string)
    ensures text == [] ==> r == ""
    ensures r == Escaped(text)
  {
    if text == [] {
      return "";
    }
    r := text;
    EscapeWithNothing(text);
    assert Special[..0] == [];
    for k := 0 to |Special|
      invariant r == EscapeWith(text, Special[..k])
    {
      var c := Special[k];
      assert Special[..k + 1] == Special[..k] + [c];
      SpecialIsNew(k);
      ReplaceExtendsEscape(text, Special[..k], c);
      r := ReplaceChar(r, c, ['\\', c]);
    }
    assert Special[..|Special|] == Special;
  }

  function CountSpecial(s: string): nat {
    if s == [] then 0 else (if IsSpecial(s[0]) then 1 else 0) + CountSpecial(s[1..])
  }

  /** The full stop is reserved. */
  lemma DotIsSpecial()
    ensures IsSpecial('.')
  {
    assert Special[16] == '.';
  }

  /** A text made only of reserved characters counts each of them. */
  lemma {:induction false} CountSpecialAll(s: string)
    requires forall i :: 0 <= i < |s| ==> IsSpecial(s[i])
    ensures CountSpecial(s) == |s|
  {
    if s != [] {
      assert IsSpecial(s[0]);
      CountSpecialAll(s[1..]);
    }
  }

  /** Escaping adds exactly one character per reserved character. */
  lemma {:induction false} EscapedLength(s: string)
    ensures |Escaped(s)| == |s| + CountSpecial(s)
  {
    if s != [] {
      EscapedLength(s[1..]);
    }
  }

  /** The escaped text never starts with a reserved character. */
  lemma EscapedHead(s: string)
    requires s != []
    ensures !IsSpecial(Escaped(s)[0])
  {
  }

  /** In the escaped text, every reserved character directly follows a backslash. */
  lemma {:induction false} EscapedSpecialsArePreceded(s: string)
    ensures forall j :: 0 <= j < |Escaped(s)| && IsSpecial(Escaped(s)[j]) ==> 0 < j && Escaped(s)[j - 1] == '\\'
  {
    if s != [] {
      EscapedSpecialsArePreceded(s[1..]);
      var head := EscapeCharWith(s[0], Special);
      var tail := Escaped(s[1..]);
      assert Escaped(s) == head + tail;
      forall j | 0 <= j < |Escaped(s)| && IsSpecial(Escaped(s)[j])
        ensures 0 < j && Escaped(s)[j - 1] == '\\'
      {
        if j >= |head| {
          if j == |head| {
            EscapedHead(s[1..]);
          }
        }
      }
    }
  }

  /** Drops the backslash in front of each reserved character. */
  function Unescape(t: string): string
    decreases |t|
  {
    if t == [] then []
    else if |t| >= 2 && t[0] == '\\' && IsSpecial(t[1]) then [t[1]] + Unescape(t[2..])
    else [t[0]] + Unescape(t[1..])
  }

  /** Escaping loses nothing: unescaping gives the original text back. */
  lemma {:induction false} UnescapeEscaped(s: string)
    ensures Unescape(Escaped(s)) == s
  {
    if s != [] {
      var tail := Escaped(s[1..]);
      UnescapeEscaped(s[1..]);
      if IsSpecial(s[0]) {
        assert Escaped(s) == ['\\', s[0]] + tail;
        assert (['\\', s[0]] + tail)[2..] == tail;
      } else {
        assert Escaped(s) == [s[0]] + tail;
        if s[0] == '\\' && |tail| > 0 {
          EscapedHead(s[1..]);
        }
        assert ([s[0]] + tail)[1..] == tail;
      }
    }
  }

  /** A character that is neither reserved nor a backslash is in the escaped
      text exactly when it is in the original. */
  lemma {:induction false} EscapedKeepsOtherChars(s: string, c: char)
    requires !IsSpecial(c) && c != '\\'
    ensures c in Escaped(s) <==> c in s
  {
    if s != [] {
      EscapedKeepsOtherChars(s[1..], c);
      assert Escaped(s) == EscapeCharWith(s[0], Special) + Escaped(s[1..]);
      assert s == [s[0]] + s[1..];
    }
  }
}

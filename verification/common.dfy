/** utils/common.js: the label formatter `formatErrorMessage`. */
module Common {

  predicate IsUpperAscii(c: char)
  {
    'A' <= c <= 'Z'
  }

  predicate IsLowerAscii(c: char)
  {
    'a' <= c <= 'z'
  }

  /** The characters `String.prototype.trim` removes: JavaScript's WhiteSpace
      and LineTerminator productions. */
  predicate IsJsWhitespace(c: char)
  {
    c == '\t' || c == '\n' || c == '\U{000B}' || c == '\U{000C}' || c == '\r' || c == ' '
    || c == '\U{00A0}' || c == '\U{1680}' || ('\U{2000}' <= c <= '\U{200A}')
    || c == '\U{2028}' || c == '\U{2029}' || c == '\U{202F}' || c == '\U{205F}'
    || c == '\U{3000}' || c == '\U{FEFF}'
  }

  predicate HasNonWhitespace(s: string)
  {
    exists i :: 0 <= i < |s| && !IsJsWhitespace(s[i])
  }

  predicate NoWhitespace(s: string)
  {
    forall i :: 0 <= i < |s| ==> !IsJsWhitespace(s[i])
  }

  /** `toUpperCase` on a character matched by `\w` (`[A-Za-z0-9_]`): only a
      lower-case ASCII letter changes. */
  function UpperAscii(c: char): (u: char)
    ensures IsLowerAscii(c) ==> IsUpperAscii(u) && (u as int) == (c as int) - 32
    ensures !IsLowerAscii(c) ==> u == c
  {
    if IsLowerAscii(c) then ((c as int) - 32) as char else c
  }

  /** Every upper-case ASCII letter after the first character has a space
      right before it. */
  predicate CapitalsSpaced(r: string)
  {
    forall j :: 0 < j < |r| && IsUpperAscii(r[j]) ==> r[j - 1] == ' '
  }

  /** `.replace(/([A-Z])/g, ' $1')`. */
  function SpaceCapitals(text: string): string
  {
    if text == [] then []
    else (if IsUpperAscii(text[0]) then [' ', text[0]] else [text[0]]) + SpaceCapitals(text[1..])
  }

  /** In the spaced form every upper-case ASCII letter has a space right
      before it, so none is the first character. */
  lemma {:induction false} SpacedCapitals(text: string)
    ensures CapitalsSpaced(SpaceCapitals(text))
    ensures SpaceCapitals(text) != [] ==> !IsUpperAscii(SpaceCapitals(text)[0])
  {
    if text != [] {
      SpacedCapitals(text[1..]);
      var rest := SpaceCapitals(text[1..]);
      if IsUpperAscii(text[0]) {
        var r := [' ', text[0]] + rest;
        assert r == SpaceCapitals(text);
        forall j | 0 < j < |r| && IsUpperAscii(r[j]) ensures r[j - 1] == ' ' {
          if j >= 2 {
            assert r[j] == rest[j - 2];
            if j > 2 {
              assert r[j - 1] == rest[j - 3];
            }
          }
        }
      } else {
        var r := [text[0]] + rest;
        assert r == SpaceCapitals(text);
        forall j | 0 < j < |r| && IsUpperAscii(r[j]) ensures r[j - 1] == ' ' {
          if j >= 1 {
            assert r[j] == rest[j - 1];
            if j > 1 {
              assert r[j - 1] == rest[j - 2];
            }
          }
        }
      }
    }
  }

  /** Spacing keeps every character of the label, so it has a visible
      character exactly when the label has one. */
  lemma {:induction false} SpacedVisible(text: string)
    ensures HasNonWhitespace(SpaceCapitals(text)) <==> HasNonWhitespace(text)
  {
    if text != [] {
      SpacedVisible(text[1..]);
      var head := if IsUpperAscii(text[0]) then [' ', text[0]] else [text[0]];
      var rest := SpaceCapitals(text[1..]);
      assert HasNonWhitespace(text) <==> !IsJsWhitespace(text[0]) || HasNonWhitespace(text[1..]) by {
        if HasNonWhitespace(text[1..]) {
          var i :| 0 <= i < |text[1..]| && !IsJsWhitespace(text[1..][i]);
          assert text[i + 1] == text[1..][i];
        }
        if HasNonWhitespace(text) && IsJsWhitespace(text[0]) {
          var i :| 0 <= i < |text| && !IsJsWhitespace(text[i]);
          assert text[1..][i - 1] == text[i];
        }
      }
      var hr := head + rest;
      assert hr == SpaceCapitals(text);
      if HasNonWhitespace(rest) {
        var i :| 0 <= i < |rest| && !IsJsWhitespace(rest[i]);
        assert hr[|head| + i] == rest[i];
      }
      if !IsJsWhitespace(text[0]) {
        assert hr[|head| - 1] == text[0];
      }
      if HasNonWhitespace(hr) && IsJsWhitespace(text[0]) {
        var i :| 0 <= i < |hr| && !IsJsWhitespace(hr[i]);
        assert i >= |head|;
        assert rest[i - |head|] == hr[i];
      }
    }
  }

  /** `.trimStart()`: the suffix left after the leading whitespace. */
  function TrimStart(s: string): (r: string)
    ensures |r| <= |s| && r == s[|s| - |r|..]
    ensures forall i :: 0 <= i < |s| - |r| ==> IsJsWhitespace(s[i])
    ensures r != [] ==> !IsJsWhitespace(r[0])
  {
    if s != [] && IsJsWhitespace(s[0]) then TrimStart(s[1..]) else s
  }

  /** `.trimEnd()`: the prefix left before the trailing whitespace. */
  function TrimEnd(s: string): (r: string)
    ensures |r| <= |s| && r == s[..|r|]
    ensures forall i :: |r| <= i < |s| ==> IsJsWhitespace(s[i])
    ensures r != [] ==> !IsJsWhitespace(r[|r| - 1])
  {
    if s != [] && IsJsWhitespace(s[|s| - 1]) then TrimEnd(s[..|s| - 1]) else s
  }

  /** `.trim()`: a contiguous part of `s` starting at `LeadingWhitespace(s)`,
      empty exactly when `s` is all whitespace. */
  function Trim(s: string): (r: string)
    ensures LeadingWhitespace(s) + |r| <= |s|
    ensures r == s[LeadingWhitespace(s)..LeadingWhitespace(s) + |r|]
    ensures forall i :: 0 <= i < LeadingWhitespace(s) ==> IsJsWhitespace(s[i])
    ensures forall i :: LeadingWhitespace(s) + |r| <= i < |s| ==> IsJsWhitespace(s[i])
    ensures r != [] ==> !IsJsWhitespace(r[0]) && !IsJsWhitespace(r[|r| - 1])
  {
    TrimEnd(TrimStart(s))
  }

  /** Trimming leaves nothing exactly when the string is all whitespace. */
  lemma TrimEmpty(s: string)
    ensures Trim(s) == [] <==> !HasNonWhitespace(s)
  {
    var t := TrimStart(s);
    var r := TrimEnd(t);
    if r == [] {
      assert t == [];
      assert forall i :: 0 <= i < |s| ==> IsJsWhitespace(s[i]);
    } else {
      assert s[|s| - |t|] == t[0] == r[0];
    }
  }

  function LeadingWhitespace(s: string): nat
  {
    |s| - |TrimStart(s)|
  }

  /** `.replace(/^\w/, c => c.toUpperCase())`. */
  function CapitalizeFirst(s: string): (r: string)
    ensures |r| == |s|
    ensures s != [] ==> r[0] == UpperAscii(s[0]) && r[1..] == s[1..]
  {
    if s == [] then [] else [UpperAscii(s[0])] + s[1..]
  }

  const RequiredSuffix: string := " is required"

  /** `formatErrorMessage(label)`: the label with every capital preceded by a
      space, trimmed, its first letter capitalised, then " is required". */
  function FormatErrorMessage(text: string): (r: string)
    ensures |r| >= |RequiredSuffix| && r[|r| - |RequiredSuffix|..] == RequiredSuffix
  {
    MessageBody(text) + RequiredSuffix
  }

  /** The message without its suffix. */
  function MessageBody(text: string): string
  {
    CapitalizeFirst(Trim(SpaceCapitals(text)))
  }

  lemma SuffixHasNoCapitals()
    ensures forall i :: 0 <= i < |RequiredSuffix| ==> !IsUpperAscii(RequiredSuffix[i])
  {
  }

  lemma TrimKeepsCapitalsSpaced(s: string)
    requires CapitalsSpaced(s) && (s != [] ==> !IsUpperAscii(s[0]))
    ensures CapitalsSpaced(Trim(s))
  {
    var t := Trim(s);
    var k := LeadingWhitespace(s);
    forall j | 0 < j < |t| && IsUpperAscii(t[j]) ensures t[j - 1] == ' ' {
      assert t[j] == s[k + j];
      assert t[j - 1] == s[k + j - 1];
    }
  }

  lemma CapitalizeKeepsCapitalsSpaced(t: string)
    requires CapitalsSpaced(t) && (t != [] ==> t[0] != ' ')
    ensures CapitalsSpaced(CapitalizeFirst(t))
  {
    var b := CapitalizeFirst(t);
    forall j | 0 < j < |b| && IsUpperAscii(b[j]) ensures b[j - 1] == ' ' {
      assert b[j] == t[j];
      if j > 1 {
        assert b[j - 1] == t[j - 1];
      }
    }
  }

  lemma SuffixKeepsCapitalsSpaced(b: string)
    requires CapitalsSpaced(b)
    ensures CapitalsSpaced(b + RequiredSuffix)
  {
    SuffixHasNoCapitals();
    var r := b + RequiredSuffix;
    forall j | 0 < j < |r| && IsUpperAscii(r[j]) ensures r[j - 1] == ' ' {
      if j < |b| {
        assert r[j] == b[j] && r[j - 1] == b[j - 1];
      }
    }
  }

  /** Every upper-case ASCII letter of the result, except the first character,
      has a space right before it. */
  lemma CapitalsFollowSpaces(text: string)
    ensures CapitalsSpaced(FormatErrorMessage(text))
  {
    var sp := SpaceCapitals(text);
    SpacedCapitals(text);
    TrimKeepsCapitalsSpaced(sp);
    var t := Trim(sp);
    CapitalizeKeepsCapitalsSpaced(t);
    SuffixKeepsCapitalsSpaced(CapitalizeFirst(t));
  }

  /** The result starts with a non-whitespace character exactly when the label
      has one; an all-whitespace label gives `" is required"`. */
  lemma FirstCharacterVisible(text: string)
    ensures !IsJsWhitespace(FormatErrorMessage(text)[0]) <==> HasNonWhitespace(text)
    ensures !HasNonWhitespace(text) ==> FormatErrorMessage(text) == RequiredSuffix
  {
    var t := Trim(SpaceCapitals(text));
    SpacedVisible(text);
    TrimEmpty(SpaceCapitals(text));
    if t != [] {
      assert FormatErrorMessage(text)[0] == UpperAscii(t[0]);
    }
  }

  /** `.replace(/ /g, "")`, used to state what the formatter inserts. */
  function RemoveSpaces(s: string): (r: string)
    ensures forall i :: 0 <= i < |r| ==> r[i] != ' '
  {
    if s == [] then [] else (if s[0] == ' ' then [] else [s[0]]) + RemoveSpaces(s[1..])
  }

  lemma {:induction false} RemoveSpacesAppend(a: string, b: string)
    ensures RemoveSpaces(a + b) == RemoveSpaces(a) + RemoveSpaces(b)
  {
    if a == [] {
      assert a + b == b;
    } else {
      assert (a + b)[1..] == a[1..] + b;
      RemoveSpacesAppend(a[1..], b);
    }
  }

  /** Every whitespace character is a space followed by an upper-case letter. */
  predicate OnlyInsertedSpaces(sp: string)
  {
    forall i :: 0 <= i < |sp| && IsJsWhitespace(sp[i]) ==> sp[i] == ' ' && i + 1 < |sp| && IsUpperAscii(sp[i + 1])
  }

  /** For a whitespace-free label, the only whitespace the spacing step adds
      is a space right before an upper-case letter, and removing it gives the
      label back. */
  lemma {:induction false} SpacedWithoutWhitespace(text: string)
    requires NoWhitespace(text)
    ensures RemoveSpaces(SpaceCapitals(text)) == text
    ensures OnlyInsertedSpaces(SpaceCapitals(text))
  {
    if text != [] {
      var c := text[0];
      assert !IsJsWhitespace(c);
      assert NoWhitespace(text[1..]) by {
        forall i | 0 <= i < |text[1..]| ensures !IsJsWhitespace(text[1..][i]) {
          assert text[1..][i] == text[i + 1];
        }
      }
      SpacedWithoutWhitespace(text[1..]);
      var head := if IsUpperAscii(text[0]) then [' ', text[0]] else [text[0]];
      var rest := SpaceCapitals(text[1..]);
      assert SpaceCapitals(text) == head + rest;
      RemoveSpacesAppend(head, rest);
      assert RemoveSpaces(head) == [text[0]];
      assert text == [text[0]] + text[1..];
      InsertedSpacesAppend(text[0], head, rest);
    }
  }

  /** A visible character `c`, or a space before a capital `c`, followed by
      a part whose only whitespace is inserted spaces. */
  lemma InsertedSpacesAppend(c: char, head: string, rest: string)
    requires head == [c] || (head == [' ', c] && IsUpperAscii(c))
    requires !IsJsWhitespace(c)
    requires OnlyInsertedSpaces(rest)
    ensures OnlyInsertedSpaces(head + rest)
  {
    var sp := head + rest;
    forall i | 0 <= i < |sp| && IsJsWhitespace(sp[i])
      ensures sp[i] == ' ' && i + 1 < |sp| && IsUpperAscii(sp[i + 1])
    {
      if i >= |head| {
        assert sp[i] == rest[i - |head|];
        assert i + 1 < |sp| && sp[i + 1] == rest[i + 1 - |head|];
      }
    }
  }

  /** How the spaced form of a label begins. */
  lemma SpacedStart(text: string)
    requires text != []
    ensures IsUpperAscii(text[0]) ==> |SpaceCapitals(text)| >= 2 && SpaceCapitals(text)[0] == ' ' && SpaceCapitals(text)[1] == text[0]
    ensures !IsUpperAscii(text[0]) ==> |SpaceCapitals(text)| >= 1 && SpaceCapitals(text)[0] == text[0]
  {
    var head := if IsUpperAscii(text[0]) then [' ', text[0]] else [text[0]];
    assert SpaceCapitals(text) == head + SpaceCapitals(text[1..]);
  }

  /** Trimming the spaced form of a whitespace-free label removes at most the
      space inserted before a leading capital. */
  lemma TrimSpaced(text: string)
    requires NoWhitespace(text) && text != []
    ensures Trim(SpaceCapitals(text)) != [] && Trim(SpaceCapitals(text))[0] == text[0]
    ensures RemoveSpaces(Trim(SpaceCapitals(text))) == text
  {
    var sp := SpaceCapitals(text);
    SpacedWithoutWhitespace(text);
    SpacedStart(text);
    var t := Trim(sp);
    var k := LeadingWhitespace(sp);
    assert !IsJsWhitespace(sp[|sp| - 1]);
    assert !IsJsWhitespace(text[0]);
    assert k + |t| == |sp| by {
    }
    assert k == (if IsUpperAscii(text[0]) then 1 else 0) by {
      if IsUpperAscii(text[0]) {
        assert IsJsWhitespace(sp[0]);
        assert !IsJsWhitespace(sp[1]);
      } else {
        assert !IsJsWhitespace(sp[0]);
      }
    }
  }

  /** For a whitespace-free label, deleting the inserted spaces from the part
      before `" is required"` gives back the label with its first letter
      upper-cased: nothing else is changed. */
  lemma RoundTrip(text: string)
    requires NoWhitespace(text)
    ensures RemoveSpaces(MessageBody(text)) == CapitalizeFirst(text)
    ensures FormatErrorMessage(text) == MessageBody(text) + RequiredSuffix
  {
    if text != [] {
      TrimSpaced(text);
      var t := Trim(SpaceCapitals(text));
      assert t == [t[0]] + t[1..];
      RemoveSpacesAppend([t[0]], t[1..]);
      assert RemoveSpaces(t[1..]) == text[1..];
      var b := MessageBody(text);
      assert b == [UpperAscii(t[0])] + t[1..];
      RemoveSpacesAppend([UpperAscii(t[0])], t[1..]);
    }
  }

  /** For a whitespace-free label the first character of the result is the
      text's first character upper-cased if it is a lower-case ASCII letter,
      and unchanged otherwise. */
  lemma LeadingLetter(text: string)
    requires NoWhitespace(text) && text != []
    ensures FormatErrorMessage(text)[0] == UpperAscii(text[0])
  {
    RoundTrip(text);
    var b := MessageBody(text);
    var t := Trim(SpaceCapitals(text));
    assert t != [] by { assert HasNonWhitespace(text) by { assert !IsJsWhitespace(text[0]); } }
    assert b[0] == UpperAscii(t[0]);
    assert b == [b[0]] + b[1..];
    RemoveSpacesAppend([b[0]], b[1..]);
    assert b[0] != ' ';
    assert RemoveSpaces(b)[0] == b[0];
  }

  lemma {:induction false} SpaceCapitalsAppend(a: string, b: string)
    ensures SpaceCapitals(a + b) == SpaceCapitals(a) + SpaceCapitals(b)
  {
    if a == [] {
      assert a + b == b;
    } else {
      assert (a + b)[1..] == a[1..] + b;
      SpaceCapitalsAppend(a[1..], b);
    }
  }

  lemma {:induction false} SpaceCapitalsNoCapitals(text: string)
    requires forall i :: 0 <= i < |text| ==> !IsUpperAscii(text[i])
    ensures SpaceCapitals(text) == text
  {
    if text != [] {
      SpaceCapitalsNoCapitals(text[1..]);
    }
  }

  lemma TrimUntouched(s: string)
    requires s != [] && !IsJsWhitespace(s[0]) && !IsJsWhitespace(s[|s| - 1])
    ensures Trim(s) == s
  {
    assert LeadingWhitespace(s) == 0;
  }

  predicate AllLowerAscii(s: string)
  {
    forall i :: 0 <= i < |s| ==> IsLowerAscii(s[i])
  }

  lemma SpacedCapitalWord(word: string)
    requires word != [] && IsUpperAscii(word[0]) && AllLowerAscii(word[1..])
    ensures SpaceCapitals(word) == " " + word
  {
    SpaceCapitalsNoCapitals(word[1..]);
    assert SpaceCapitals(word) == [' ', word[0]] + SpaceCapitals(word[1..]);
    assert [' ', word[0]] + word[1..] == " " + word;
  }

  lemma SpacedTwoWords(first: string, second: string)
    requires AllLowerAscii(first)
    requires second != [] && IsUpperAscii(second[0]) && AllLowerAscii(second[1..])
    ensures SpaceCapitals(first + second) == first + " " + second
  {
    SpaceCapitalsNoCapitals(first);
    SpacedCapitalWord(second);
    SpaceCapitalsAppend(first, second);
  }

  /** A two-word camelCase label `first` + `Second` becomes
      `"First Second is required"`. */
  lemma CamelCaseTwoWords(first: string, second: string)
    requires first != [] && AllLowerAscii(first)
    requires second != [] && IsUpperAscii(second[0]) && AllLowerAscii(second[1..])
    ensures FormatErrorMessage(first + second) == CapitalizeFirst(first) + " " + second + RequiredSuffix
  {
    SpacedTwoWords(first, second);
    TwoWordsUntrimmed(first, second);
    var sp := first + " " + second;
    assert sp == first + (" " + second);
    CapitalizeAppend(first, " " + second);
    FormatUntrimmed(first + second, sp);
  }

  /** A label whose spaced form trims to itself. */
  lemma FormatUntrimmed(text: string, sp: string)
    requires SpaceCapitals(text) == sp && Trim(sp) == sp
    ensures FormatErrorMessage(text) == CapitalizeFirst(sp) + RequiredSuffix
  {
  }

  lemma TwoWordsUntrimmed(first: string, second: string)
    requires first != [] && AllLowerAscii(first)
    requires second != [] && IsUpperAscii(second[0]) && AllLowerAscii(second[1..])
    ensures Trim(first + " " + second) == first + " " + second
  {
    var sp := first + " " + second;
    assert sp[0] == first[0] && IsLowerAscii(first[0]);
    assert sp[|sp| - 1] == second[|second| - 1];
    assert IsLowerAscii(second[|second| - 1]) || IsUpperAscii(second[|second| - 1]) by {
      if |second| > 1 {
        assert second[|second| - 1] == second[1..][|second| - 2];
      }
    }
    TrimUntouched(sp);
  }

  /** Capitalising only looks at the first character. */
  lemma CapitalizeAppend(s: string, t: string)
    requires s != []
    ensures CapitalizeFirst(s + t) == CapitalizeFirst(s) + t
  {
    var r := CapitalizeFirst(s + t);
    assert (s + t)[0] == s[0] && (s + t)[1..] == s[1..] + t;
    assert r == [r[0]] + r[1..];
  }

  /** A label written as two camelCase words formats as the two words
      spaced, the first capitalised, followed by the suffix. */
  lemma TwoWordExample(first: string, second: string, text: string, expected: string)
    requires first != [] && AllLowerAscii(first)
    requires second != [] && IsUpperAscii(second[0]) && AllLowerAscii(second[1..])
    requires first + second == text
    requires CapitalizeFirst(first) + " " + second + RequiredSuffix == expected
    ensures FormatErrorMessage(text) == expected
  {
    CamelCaseTwoWords(first, second);
  }

  /** `"productPrice"` gives `"Product Price is required"`. */
  lemma ExampleProductPrice()
    ensures FormatErrorMessage("productPrice") == "Product Price is required"
  {
    ProductPriceWords();
    TwoWordExample("product", "Price", "productPrice", "Product Price is required");
  }

  lemma ProductPriceWords()
    ensures AllLowerAscii("product") && IsUpperAscii("Price"[0]) && AllLowerAscii("Price"[1..])
    ensures CapitalizeFirst("product") + " " + "Price" + RequiredSuffix == "Product Price is required"
    ensures "product" + "Price" == "productPrice"
  {
    ProductCapitalized();
  }

  lemma ProductCapitalized()
    ensures CapitalizeFirst("product") == "Product"
  {
    assert CapitalizeFirst("product") == [UpperAscii('p')] + "roduct";
  }

  lemma CategoryNameWords()
    ensures AllLowerAscii("category") && IsUpperAscii("Name"[0]) && AllLowerAscii("Name"[1..])
    ensures CapitalizeFirst("category") + " " + "Name" + RequiredSuffix == "Category Name is required"
    ensures "category" + "Name" == "categoryName"
  {
    CategoryCapitalized();
  }

  lemma CategoryCapitalized()
    ensures CapitalizeFirst("category") == "Category"
  {
    assert CapitalizeFirst("category") == [UpperAscii('c')] + "ategory";
  }

  /** `"categoryName"` gives `"Category Name is required"`. */
  lemma ExampleCategoryName()
    ensures FormatErrorMessage("categoryName") == "Category Name is required"
  {
    CategoryNameWords();
    TwoWordExample("category", "Name", "categoryName", "Category Name is required");
  }
}

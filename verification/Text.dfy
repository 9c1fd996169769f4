/** Textual replacement, as Python's `str.replace` does it, and what it does to the identifiers of a
    text. */
module Text {
  import opened Seqs

  // ---- Substrings ----

  /** `needle in hay`. */
  ghost predicate OccursAt(hay: string, needle: string, i: nat) {
    i + |needle| <= |hay| && hay[i..i + |needle|] == needle
  }

  predicate StartsWith(s: string, prefix: string) {
    |prefix| <= |s| && s[..|prefix|] == prefix
  }

  predicate Contains(hay: string, needle: string) {
    StartsWith(hay, needle) || (hay != "" && Contains(hay[1..], needle))
  }

  lemma {:induction false} ContainsIff(hay: string, needle: string)
    ensures Contains(hay, needle) <==> exists i :: 0 <= i <= |hay| && OccursAt(hay, needle, i)
  {
    if StartsWith(hay, needle) {
      assert OccursAt(hay, needle, 0);
    } else if hay != "" {
      ContainsIff(hay[1..], needle);
      forall i | 0 <= i <= |hay| && OccursAt(hay, needle, i) ensures Contains(hay, needle) {
        assert i > 0 && hay[1..][i - 1..i - 1 + |needle|] == hay[i..i + |needle|];
        assert OccursAt(hay[1..], needle, i - 1);
      }
      if Contains(hay[1..], needle) {
        var i :| 0 <= i <= |hay| - 1 && OccursAt(hay[1..], needle, i);
        assert hay[1..][i..i + |needle|] == hay[i + 1..i + 1 + |needle|];
        assert OccursAt(hay, needle, i + 1);
      }
    }
  }

  lemma ContainsTransitive(a: string, b: string, c: string)
    requires Contains(a, b) && Contains(b, c)
    ensures Contains(a, c)
  {
    ContainsIff(a, b);
    ContainsIff(b, c);
    var i :| 0 <= i <= |a| && OccursAt(a, b, i);
    var j :| 0 <= j <= |b| && OccursAt(b, c, j);
    assert forall k :: 0 <= k < |b| ==> b[k] == a[i..i + |b|][k] == a[i + k];
    assert forall k :: 0 <= k < |c| ==> c[k] == b[j..j + |c|][k] == b[j + k];
    assert OccursAt(a, c, i + j);
    ContainsIff(a, c);
  }

  lemma ContainsBothWays(a: string, b: string)
    requires Contains(a, b) && Contains(b, a)
    ensures a == b
  {
    ContainsIff(a, b);
    ContainsIff(b, a);
    var i :| 0 <= i <= |a| && OccursAt(a, b, i);
    var j :| 0 <= j <= |b| && OccursAt(b, a, j);
    assert i == 0 && a[0..|b|] == a;
  }

  // ---- Replacement ----

  /** `text.replace(name, new)`: from left to right, without overlap. */
  function Replace(text: string, name: string, new_: string): string
    requires name != ""
    decreases |text|
  {
    if StartsWith(text, name) then new_ + Replace(text[|name|..], name, new_)
    else if text == "" then ""
    else [text[0]] + Replace(text[1..], name, new_)
  }

  lemma {:induction false} ReplaceAbsent(text: string, name: string, new_: string)
    requires name != "" && !Contains(text, name)
    ensures Replace(text, name, new_) == text
    decreases |text|
  {
    if text != "" {
      ReplaceAbsent(text[1..], name, new_);
    }
  }

  lemma ReplaceWhole(name: string, new_: string)
    requires name != ""
    ensures Replace(name, name, new_) == new_
  {
    assert name[|name|..] == "";
    assert Replace("", name, new_) == "";
  }

  /** `needle` occurs at `i` and nowhere else. */
  ghost predicate OnlyAt(hay: string, needle: string, i: nat) {
    OccursAt(hay, needle, i) && forall j :: 0 <= j <= |hay| && OccursAt(hay, needle, j) ==> j == i
  }

  lemma OccursInTail(hay: string, needle: string, i: nat, j: nat)
    requires i <= |hay|
    ensures OccursAt(hay[i..], needle, j) <==> OccursAt(hay, needle, i + j)
  {
    if i + j + |needle| <= |hay| {
      assert hay[i..][j..j + |needle|] == hay[i + j..i + j + |needle|];
    }
  }

  lemma OnlyInTail(hay: string, needle: string, i: nat, at: nat)
    requires i <= at && OnlyAt(hay, needle, at)
    ensures OnlyAt(hay[i..], needle, at - i)
  {
    OccursInTail(hay, needle, i, at - i);
    forall j | 0 <= j <= |hay| - i && OccursAt(hay[i..], needle, j) ensures j == at - i {
      OccursInTail(hay, needle, i, j);
    }
  }

  lemma AbsentAfter(hay: string, needle: string, at: nat)
    requires needle != "" && OnlyAt(hay, needle, at) && at + |needle| <= |hay|
    ensures !Contains(hay[at + |needle|..], needle)
  {
    hide OccursAt, Contains;
    var from := at + |needle|;
    assert from > at;
    ContainsIff(hay[from..], needle);
    forall j | 0 <= j <= |hay| - from ensures !OccursAt(hay[from..], needle, j) {
      OccursInTail(hay, needle, from, j);
      OnlyOnce(hay, needle, at, from + j);
    }
  }

  lemma OnlyOnce(hay: string, needle: string, at: nat, j: nat)
    requires OnlyAt(hay, needle, at) && j != at
    ensures !OccursAt(hay, needle, j)
  {
    assert OccursAt(hay, needle, j) ==> j <= |hay|;
  }

  // ---- Replacement is splitting and joining ----

  /** `parts` is what `text.split(name)` gives: the text between the occurrences of the name, each
      taken as far to the left as it can be, behind the one before it. */
  ghost predicate IsCut(text: string, name: string, parts: seq<string>)
    decreases |parts|
  {
    && parts != []
    && if |parts| == 1 then text == parts[0] && !Contains(text, name)
       else
         var at := |parts[0]|;
         && at <= |text| && text[..at] == parts[0] && IsFirst(text, name, at)
         && IsCut(text[at + |name|..], name, parts[1..])
  }

  /** The first occurrence of the name is at `at`. */
  ghost predicate IsFirst(text: string, name: string, at: nat) {
    at + |name| <= |text| && OccursAt(text, name, at) && forall i :: 0 <= i < at ==> !OccursAt(text, name, i)
  }

  /** `separator.join(parts)`. */
  function JoinWith(parts: seq<string>, separator: string): string
    requires parts != []
  {
    if |parts| == 1 then parts[0] else parts[0] + separator + JoinWith(parts[1..], separator)
  }

  lemma {:induction false} ReplaceFirst(text: string, name: string, new_: string, at: nat)
    requires name != "" && IsFirst(text, name, at)
    ensures Replace(text, name, new_) == text[..at] + new_ + Replace(text[at + |name|..], name, new_)
    decreases at
  {
    assert OccursAt(text, name, 0) <==> StartsWith(text, name);
    if at == 0 {
      assert text[..0] + new_ == new_;
    } else {
      var rest := Replace(text[at + |name|..], name, new_);
      assert Replace(text, name, new_) == [text[0]] + Replace(text[1..], name, new_);
      FirstInTail(text, name, at);
      hide Replace, IsFirst, OccursAt;
      ReplaceFirst(text[1..], name, new_, at - 1);
      assert text[1..][at - 1 + |name|..] == text[at + |name|..];
      assert text[..at] == [text[0]] + text[1..][..at - 1];
      Assoc([text[0]], text[1..][..at - 1] + new_, rest);
      Assoc([text[0]], text[1..][..at - 1], new_);
    }
  }

  lemma FirstInTail(text: string, name: string, at: nat)
    requires 0 < at && IsFirst(text, name, at)
    ensures IsFirst(text[1..], name, at - 1)
  {
    OccursInTail(text, name, 1, at - 1);
    forall i | 0 <= i < at - 1 ensures !OccursAt(text[1..], name, i) {
      OccursInTail(text, name, 1, i);
    }
  }

  /** Replacing is splitting at the name and joining with the new name; for every text there is such a
      cut, and joining its parts with the name itself gives the text back. */
  lemma {:induction false} ReplaceIsSplitAndJoin(text: string, name: string, new_: string, parts: seq<string>)
    requires name != "" && IsCut(text, name, parts)
    ensures Replace(text, name, new_) == JoinWith(parts, new_) && text == JoinWith(parts, name)
    decreases |parts|
  {
    if |parts| == 1 {
      ReplaceAbsent(text, name, new_);
    } else {
      var at := |parts[0]|;
      var rest := text[at + |name|..];
      ReplaceFirst(text, name, new_, at);
      assert text == text[..at] + name + rest;
      hide Replace, IsFirst;
      ReplaceIsSplitAndJoin(rest, name, new_, parts[1..]);
    }
  }

  lemma {:induction false} HasCut(text: string, name: string) returns (parts: seq<string>)
    requires name != ""
    ensures IsCut(text, name, parts)
    decreases |text|
  {
    if Contains(text, name) {
      var at := FirstPlace(text, name);
      var later := HasCut(text[at + |name|..], name);
      parts := [text[..at]] + later;
      assert parts[1..] == later;
    } else {
      parts := [text];
    }
  }

  lemma {:induction false} FirstPlace(text: string, name: string) returns (at: nat)
    requires name != "" && Contains(text, name)
    ensures IsFirst(text, name, at)
    decreases |text|
  {
    if StartsWith(text, name) {
      at := 0;
    } else {
      var before := FirstPlace(text[1..], name);
      at := before + 1;
      OccursInTail(text, name, 1, before);
      forall i | 0 <= i < at ensures !OccursAt(text, name, i) {
        if i > 0 {
          OccursInTail(text, name, 1, i - 1);
        }
      }
    }
  }

  lemma ReplaceOnlyAt(text: string, name: string, new_: string, at: nat)
    requires name != "" && OnlyAt(text, name, at)
    ensures Replace(text, name, new_) == text[..at] + new_ + text[at + |name|..]
  {
    ReplaceFirst(text, name, new_, at);
    AbsentAfter(text, name, at);
    ReplaceAbsent(text[at + |name|..], name, new_);
  }

  lemma ReplaceMiddle(a: string, name: string, b: string, new_: string)
    requires name != "" && OnlyAt(a + name + b, name, |a|)
    ensures Replace(a + name + b, name, new_) == a + new_ + b
  {
    var text := a + name + b;
    assert text[..|a|] == a && text[|a| + |name|..] == b;
    ReplaceOnlyAt(text, name, new_, |a|);
  }

  /** A character that does not occur in the name cuts the text into parts that are replaced on
      their own. */
  lemma {:induction false} ReplaceAtDelimiter(a: string, d: char, b: string, name: string, new_: string)
    requires name != "" && d !in name
    ensures Replace(a + [d] + b, name, new_) == Replace(a, name, new_) + [d] + Replace(b, name, new_)
    decreases |a|
  {
    var text := a + [d] + b;
    SameStart(a, d, b, name);
    if StartsWith(a, name) {
      ReplaceAtDelimiter(a[|name|..], d, b, name, new_);
      assert text[|name|..] == a[|name|..] + [d] + b;
      Assoc(new_, Replace(a[|name|..], name, new_) + [d], Replace(b, name, new_));
      Assoc(new_, Replace(a[|name|..], name, new_), [d]);
    } else if a == "" {
      assert text[1..] == b;
      assert Replace(a, name, new_) == "" && "" + [d] == [d];
    } else {
      ReplaceAtDelimiter(a[1..], d, b, name, new_);
      assert text[1..] == a[1..] + [d] + b;
      Assoc([a[0]], Replace(a[1..], name, new_) + [d], Replace(b, name, new_));
      Assoc([a[0]], Replace(a[1..], name, new_), [d]);
    }
  }

  lemma SameStart(a: string, d: char, b: string, name: string)
    requires name != "" && d !in name
    ensures StartsWith(a + [d] + b, name) <==> StartsWith(a, name)
  {
    var text := a + [d] + b;
    if |name| <= |a| {
      assert text[..|name|] == a[..|name|];
    } else {
      assert |name| <= |text| ==> text[..|name|][|a|] == d;
    }
  }

  // ---- Identifiers ----

  predicate IsIdentChar(c: char) {
    'a' <= c <= 'z' || 'A' <= c <= 'Z' || '0' <= c <= '9' || c == '_'
  }

  /** Made of identifier characters only. */
  predicate IsIdent(s: string) {
    forall i :: 0 <= i < |s| ==> IsIdentChar(s[i])
  }

  lemma {:induction false} ReplaceIdent(text: string, name: string, new_: string)
    requires name != "" && IsIdent(text) && IsIdent(new_)
    ensures IsIdent(Replace(text, name, new_))
    decreases |text|
  {
    if StartsWith(text, name) {
      ReplaceIdent(text[|name|..], name, new_);
    } else if text != "" {
      ReplaceIdent(text[1..], name, new_);
    }
  }

  /** Replacing `name` treats every text part by part between its delimiters exactly when the name
      has no delimiter in it. */
  lemma ReplaceRespectsDelimitersIff(name: string, new_: string)
    requires name != "" && new_ != name
    ensures (forall a, d, b :: !IsIdentChar(d) ==>
               Replace(a + [d] + b, name, new_) == Replace(a, name, new_) + [d] + Replace(b, name, new_))
            <==> IsIdent(name)
  {
    if IsIdent(name) {
      forall a, d, b | !IsIdentChar(d)
        ensures Replace(a + [d] + b, name, new_) == Replace(a, name, new_) + [d] + Replace(b, name, new_)
      {
        ReplaceAtDelimiter(a, d, b, name, new_);
      }
    } else {
      var i :| 0 <= i < |name| && !IsIdentChar(name[i]);
      var a, d, b := name[..i], name[i], name[i + 1..];
      assert a + [d] + b == name;
      TooShort(a, name);
      TooShort(b, name);
      ReplaceAbsent(a, name, new_);
      ReplaceAbsent(b, name, new_);
      ReplaceWhole(name, new_);
      assert Replace(a + [d] + b, name, new_) != Replace(a, name, new_) + [d] + Replace(b, name, new_);
    }
  }

  lemma {:induction false} TooShort(s: string, name: string)
    requires |s| < |name|
    ensures !Contains(s, name)
    decreases |s|
  {
    if s != "" {
      TooShort(s[1..], name);
    }
  }

  // ---- Texts as identifiers between delimiters ----

  /** `words[0] delims[0] words[1] ... words[n]`. */
  function Join(words: seq<string>, delims: seq<char>): string
    requires |words| == |delims| + 1
  {
    if delims == [] then words[0]
    else words[0] + [delims[0]] + Join(words[1..], delims[1..])
  }

  /** The words are identifiers, possibly empty, and the delimiters are not identifier characters. */
  ghost predicate IsSplit(words: seq<string>, delims: seq<char>) {
    && |words| == |delims| + 1
    && (forall i :: 0 <= i < |words| ==> IsIdent(words[i]))
    && (forall i :: 0 <= i < |delims| ==> !IsIdentChar(delims[i]))
  }

  function Split(text: string): (r: (seq<string>, seq<char>))
    ensures IsSplit(r.0, r.1) && Join(r.0, r.1) == text
  {
    if text == "" then ([""], [])
    else
      var (words, delims) := Split(text[1..]);
      if IsIdentChar(text[0]) then
        Grown(text[0], words, delims);
        ([[text[0]] + words[0]] + words[1..], delims)
      else
        assert ([""] + words)[1..] == words && ([text[0]] + delims)[1..] == delims;
        assert [] + [text[0]] == [text[0]];
        ([""] + words, [text[0]] + delims)
  }

  lemma Grown(c: char, words: seq<string>, delims: seq<char>)
    requires IsSplit(words, delims) && IsIdentChar(c)
    ensures IsSplit([[c] + words[0]] + words[1..], delims)
    ensures Join([[c] + words[0]] + words[1..], delims) == [c] + Join(words, delims)
  {
    var w := [[c] + words[0]] + words[1..];
    assert w[1..] == words[1..];
    assert forall i :: 0 <= i < |w| ==> IsIdent(w[i]);
    if delims != [] {
      Assoc([c], words[0], [delims[0]]);
      Assoc([c], words[0] + [delims[0]], Join(words[1..], delims[1..]));
    }
  }

  /** A text can be cut into identifiers in one way only. */
  lemma {:induction false} SplitUnique(w1: seq<string>, d1: seq<char>, w2: seq<string>, d2: seq<char>)
    requires IsSplit(w1, d1) && IsSplit(w2, d2) && Join(w1, d1) == Join(w2, d2)
    ensures w1 == w2 && d1 == d2
    decreases |d1|
  {
    FirstWord(w1, d1, w2, d2);
    if d1 == [] {
    } else {
      SplitUnique(w1[1..], d1[1..], w2[1..], d2[1..]);
      assert w1 == [w1[0]] + w1[1..] && w2 == [w2[0]] + w2[1..];
      assert d1 == [d1[0]] + d1[1..] && d2 == [d2[0]] + d2[1..];
    }
  }

  lemma FirstWord(w1: seq<string>, d1: seq<char>, w2: seq<string>, d2: seq<char>)
    requires IsSplit(w1, d1) && IsSplit(w2, d2) && Join(w1, d1) == Join(w2, d2)
    ensures w1[0] == w2[0] && (d1 == [] <==> d2 == [])
    ensures d1 != [] ==> d1[0] == d2[0] && Join(w1[1..], d1[1..]) == Join(w2[1..], d2[1..])
  {
    var text := Join(w1, d1);
    var n1, n2 := |w1[0]|, |w2[0]|;
    assert text[..n1] == w1[0] && text[..n2] == w2[0];
    assert n1 < |text| <==> d1 != [];
    assert n2 < |text| <==> d2 != [];
    assert d1 != [] ==> text[n1] == d1[0];
    assert d2 != [] ==> text[n2] == d2[0];
    assert forall i :: 0 <= i < n1 ==> text[i] == w1[0][i];
    assert forall i :: 0 <= i < n2 ==> text[i] == w2[0][i];
    assert n1 == n2;
    if d1 != [] {
      assert text[n1 + 1..] == Join(w1[1..], d1[1..]);
      assert text[n2 + 1..] == Join(w2[1..], d2[1..]);
    }
  }
}

/**
 * The demo's whitespace tokenizer and the `trim` its input box goes
 * through: `text.split(/\s+/)`, the empty pieces dropped, and each word
 * numbered by its position.
 */
module Tokens {
  import opened Text

  /** A token as the visualizers read it (the random embedding is not modelled). */
  datatype Token = Token(text: string, id: nat, position: nat)

  /** Drops the run of whitespace at the front of `s`: `trimStart`. */
  function DropSpace(s: string): (r: string)
    ensures |r| <= |s|
    ensures s != [] && IsSpace(s[0]) ==> |r| < |s|
    decreases |s|
  {
    if s != [] && IsSpace(s[0]) then DropSpace(s[1..]) else s
  }

  /** What DropSpace removes is a whitespace run, and what it keeps starts with a non-space. */
  lemma {:induction false} DropSpaceFacts(s: string)
    ensures var r := DropSpace(s);
      r == s[|s| - |r|..] && AllSpace(s[..|s| - |r|]) && (r == [] || !IsSpace(r[0]))
    decreases |s|
  {
    if s != [] && IsSpace(s[0]) {
      DropSpaceFacts(s[1..]);
      var r := DropSpace(s);
      assert s[1..][|s| - 1 - |r|..] == s[|s| - |r|..];
      forall i | 0 <= i < |s| - |r| ensures IsSpace(s[i]) {
        if i > 0 {
          assert s[i] == s[1..][..|s| - 1 - |r|][i - 1];
        }
      }
    }
  }

  /** Drops the run of whitespace at the end of `s`. */
  function DropTrailingSpace(s: string): (r: string)
    ensures |r| <= |s|
    decreases |s|
  {
    if s != [] && IsSpace(s[|s| - 1]) then DropTrailingSpace(s[..|s| - 1]) else s
  }

  /** What DropTrailingSpace removes is a whitespace run, and what it keeps ends with a non-space. */
  lemma {:induction false} DropTrailingSpaceFacts(s: string)
    ensures var r := DropTrailingSpace(s);
      r == s[..|r|] && AllSpace(s[|r|..]) && (r == [] || !IsSpace(r[|r| - 1]))
    decreases |s|
  {
    if s != [] && IsSpace(s[|s| - 1]) {
      var t := s[..|s| - 1];
      DropTrailingSpaceFacts(t);
      var r := DropTrailingSpace(s);
      assert t[..|r|] == s[..|r|];
      forall i | |r| <= i < |s| ensures IsSpace(s[i]) {
        if i < |s| - 1 {
          assert s[i] == t[|r|..][i - |r|];
        }
      }
    }
  }

  /** `s.trim()`. */
  function Trim(s: string): string
  {
    DropTrailingSpace(DropSpace(s))
  }

  /**
   * `trim` removes whitespace at both ends and nothing else, and leaves
   * nothing exactly when the text is all whitespace.
   */
  lemma TrimFacts(s: string)
    ensures var r := Trim(s);
      r == [] || (!IsSpace(r[0]) && !IsSpace(r[|r| - 1]))
    ensures var r := Trim(s);
      exists i :: 0 <= i <= |s| - |r| && s[i..i + |r|] == r && AllSpace(s[..i]) && AllSpace(s[i + |r|..])
    ensures Trim(s) == [] <==> AllSpace(s)
  {
    var d := DropSpace(s);
    DropSpaceFacts(s);
    DropTrailingSpaceFacts(d);
    var r := Trim(s);
    var i := |s| - |d|;
    assert s[i..i + |r|] == d[..|r|];
    assert s[i + |r|..] == d[|r|..];
    if r != [] {
      assert r[0] == d[0];
    }
  }

  /**
   * `text.split(/\s+/)` once the characters of the current piece `cur` have
   * been read: a whitespace run ends the piece, any other character extends it.
   */
  function SplitFrom(s: string, cur: string): (pieces: seq<string>)
    ensures pieces != []
    decreases |s|
  {
    if s == [] then [cur]
    else if IsSpace(s[0]) then [cur] + SplitFrom(DropSpace(s), [])
    else SplitFrom(s[1..], cur + [s[0]])
  }

  function Split(s: string): seq<string>
  {
    SplitFrom(s, [])
  }

  /** `.filter(word => word.length > 0)`. */
  function NonEmpty(pieces: seq<string>): (r: seq<string>)
    ensures |r| <= |pieces|
    ensures forall k :: 0 <= k < |r| ==> r[k] != [] && r[k] in pieces
  {
    if pieces == [] then []
    else if pieces[0] == [] then NonEmpty(pieces[1..])
    else [pieces[0]] + NonEmpty(pieces[1..])
  }

  /** `tokenize(text)`: word k becomes the token with id and position k. */
  function Tokenize(text: string): (ts: seq<Token>)
    ensures forall k :: 0 <= k < |ts| ==> ts[k].id == k && ts[k].position == k
  {
    var words := NonEmpty(Split(text));
    seq(|words|, k requires 0 <= k < |words| => Token(words[k], k, k))
  }

  /** The texts of a token list, in order. */
  function Texts(ts: seq<Token>): (r: seq<string>)
    ensures |r| == |ts|
  {
    seq(|ts|, k requires 0 <= k < |ts| => ts[k].text)
  }

  /** All the pieces glued together. */
  function Concat(pieces: seq<string>): string
  {
    if pieces == [] then [] else pieces[0] + Concat(pieces[1..])
  }

  /** `s` with every whitespace character removed. */
  function RemoveSpace(s: string): (r: string)
    ensures NoSpace(r)
  {
    if s == [] then []
    else if IsSpace(s[0]) then RemoveSpace(s[1..])
    else [s[0]] + RemoveSpace(s[1..])
  }

  /** `words` glued with one space between neighbours. */
  function Join(words: seq<string>): string
  {
    if |words| <= 1 then Concat(words) else words[0] + " " + Join(words[1..])
  }

  /** No piece of a split holds whitespace. */
  lemma {:induction false} SplitFromNoSpace(s: string, cur: string)
    requires NoSpace(cur)
    ensures forall k :: 0 <= k < |SplitFrom(s, cur)| ==> NoSpace(SplitFrom(s, cur)[k])
    decreases |s|
  {
    if s == [] {
    } else if IsSpace(s[0]) {
      SplitFromNoSpace(DropSpace(s), []);
    } else {
      SplitFromNoSpace(s[1..], cur + [s[0]]);
    }
  }

  /** A whitespace run contributes nothing once whitespace is removed. */
  lemma {:induction false} RemoveSpaceRun(s: string)
    ensures RemoveSpace(DropSpace(s)) == RemoveSpace(s)
    decreases |s|
  {
    if s != [] && IsSpace(s[0]) {
      RemoveSpaceRun(s[1..]);
    }
  }

  /** Gluing the pieces back gives the text read so far and the rest without whitespace. */
  lemma {:induction false} SplitFromConcat(s: string, cur: string)
    ensures Concat(SplitFrom(s, cur)) == cur + RemoveSpace(s)
    decreases |s|
  {
    if s == [] {
      assert Concat([cur]) == cur + Concat([]);
    } else if IsSpace(s[0]) {
      var rest := SplitFrom(DropSpace(s), []);
      assert ([cur] + rest)[1..] == rest;
      SplitFromConcat(DropSpace(s), []);
      RemoveSpaceRun(s);
    } else {
      SplitFromConcat(s[1..], cur + [s[0]]);
      assert cur + [s[0]] + RemoveSpace(s[1..]) == cur + ([s[0]] + RemoveSpace(s[1..]));
    }
  }

  /** Dropping the empty pieces does not change their concatenation. */
  lemma {:induction false} NonEmptyConcat(pieces: seq<string>)
    ensures Concat(NonEmpty(pieces)) == Concat(pieces)
  {
    if pieces != [] {
      NonEmptyConcat(pieces[1..]);
      if pieces[0] != [] {
        assert ([pieces[0]] + NonEmpty(pieces[1..]))[1..] == NonEmpty(pieces[1..]);
      } else {
        assert Concat(pieces) == [] + Concat(pieces[1..]);
      }
    }
  }

  /** A list with no empty pieces survives the filter unchanged. */
  lemma {:induction false} NonEmptyKeeps(pieces: seq<string>)
    requires forall k :: 0 <= k < |pieces| ==> pieces[k] != []
    ensures NonEmpty(pieces) == pieces
  {
    if pieces != [] {
      NonEmptyKeeps(pieces[1..]);
      assert [pieces[0]] + pieces[1..] == pieces;
    }
  }

  /** The token texts are exactly the non-empty pieces of the split. */
  lemma TextsAreWords(text: string)
    ensures Texts(Tokenize(text)) == NonEmpty(Split(text))
  {
  }

  /** Every token text is a non-empty word without whitespace. */
  lemma TokensAreWords(text: string)
    ensures forall k :: 0 <= k < |Tokenize(text)| ==>
      Tokenize(text)[k].text != [] && NoSpace(Tokenize(text)[k].text)
  {
    SplitFromNoSpace(text, []);
    var pieces := Split(text);
    var ts := Tokenize(text);
    forall k | 0 <= k < |ts| ensures ts[k].text != [] && NoSpace(ts[k].text) {
      var w := NonEmpty(pieces)[k];
      assert w in pieces;
      var m :| 0 <= m < |pieces| && pieces[m] == w;
    }
  }

  /** The tokens keep the input's order: together they spell the input without its whitespace. */
  lemma TokensSpellInput(text: string)
    ensures Concat(Texts(Tokenize(text))) == RemoveSpace(text)
  {
    TextsAreWords(text);
    NonEmptyConcat(Split(text));
    SplitFromConcat(text, []);
  }

  lemma {:induction false} RemoveSpaceEmpty(s: string)
    ensures RemoveSpace(s) == [] <==> AllSpace(s)
  {
    if s != [] {
      RemoveSpaceEmpty(s[1..]);
      if AllSpace(s[1..]) && IsSpace(s[0]) {
        assert AllSpace(s) by {
          forall i | 0 <= i < |s| ensures IsSpace(s[i]) {
            if i > 0 {
              assert s[i] == s[1..][i - 1];
            }
          }
        }
      }
      if AllSpace(s) {
        assert AllSpace(s[1..]) by {
          forall i | 0 <= i < |s| - 1 ensures IsSpace(s[1..][i]) {
            assert s[1..][i] == s[i + 1];
          }
        }
      }
    }
  }

  /** A text without non-empty words glues to nothing, and conversely. */
  lemma {:induction false} ConcatEmpty(words: seq<string>)
    requires forall k :: 0 <= k < |words| ==> words[k] != []
    ensures Concat(words) == [] <==> words == []
  {
    if words != [] {
      assert |Concat(words)| >= |words[0]|;
    }
  }

  /** Empty or all-whitespace input, and only such input, yields no tokens. */
  lemma NoTokensIff(text: string)
    ensures Tokenize(text) == [] <==> AllSpace(text)
  {
    TokensSpellInput(text);
    TokensAreWords(text);
    RemoveSpaceEmpty(text);
    var words := Texts(Tokenize(text));
    ConcatEmpty(words);
  }

  /** Reading a word adds it to the current piece. */
  lemma {:induction false} ReadWord(w: string, rest: string, cur: string)
    requires NoSpace(w)
    ensures SplitFrom(w + rest, cur) == SplitFrom(rest, cur + w)
    decreases |w|
  {
    if w == [] {
      assert w + rest == rest && cur + w == cur;
    } else {
      assert (w + rest)[0] == w[0];
      assert (w + rest)[1..] == w[1..] + rest;
      ReadWord(w[1..], rest, cur + [w[0]]);
      assert cur + [w[0]] + w[1..] == cur + w;
    }
  }

  /** Words glued with single spaces split back into the same words. */
  lemma {:induction false} SplitJoin(words: seq<string>)
    requires words != []
    requires forall k :: 0 <= k < |words| ==> words[k] != [] && NoSpace(words[k])
    ensures Split(Join(words)) == words
    decreases |words|
  {
    if |words| == 1 {
      assert Join(words) == words[0] + [] by {
        assert Concat(words) == words[0] + Concat([]);
      }
      ReadWord(words[0], [], []);
      assert [] + words[0] == words[0];
    } else {
      var tail := Join(words[1..]);
      SplitJoin(words[1..]);
      JoinStart(words[1..]);
      var rest := " " + tail;
      assert Join(words) == words[0] + rest;
      ReadWord(words[0], rest, []);
      assert [] + words[0] == words[0];
      assert DropSpace(rest) == DropSpace(tail) == tail;
      assert [words[0]] + words[1..] == words;
    }
  }

  /** A join of non-empty words starts with the first character of the first word. */
  lemma JoinStart(words: seq<string>)
    requires words != [] && words[0] != []
    ensures Join(words) != [] && Join(words)[0] == words[0][0]
  {
    if |words| == 1 {
      assert Concat(words) == words[0] + Concat([]);
    }
  }

  /** Tokenizing words glued with single spaces gives back exactly those words. */
  lemma JoinRoundTrip(words: seq<string>)
    requires forall k :: 0 <= k < |words| ==> words[k] != [] && NoSpace(words[k])
    ensures Texts(Tokenize(Join(words))) == words
  {
    TextsAreWords(Join(words));
    if words == [] {
      assert Split(Join(words)) == [[]];
    } else {
      SplitJoin(words);
      NonEmptyKeeps(words);
    }
  }

  /** Text with a non-space in it loses only its own leading whitespace. */
  lemma {:induction false} DropSpaceAppend(x: string, y: string)
    requires !AllSpace(x)
    ensures DropSpace(x + y) == DropSpace(x) + y
    decreases |x|
  {
    if IsSpace(x[0]) {
      assert (x + y)[1..] == x[1..] + y;
      var k :| 0 <= k < |x| && !IsSpace(x[k]);
      assert x[1..][k - 1] == x[k];
      DropSpaceAppend(x[1..], y);
    }
  }

  /** Whitespace alone leaves nothing behind. */
  lemma DropAllSpace(s: string)
    requires AllSpace(s)
    ensures DropSpace(s) == []
  {
    DropSpaceFacts(s);
  }

  /** Trailing whitespace after a word adds only an empty piece. */
  lemma {:induction false} TrailingSpaceAddsNoWord(r: string, sp: string, cur: string)
    requires AllSpace(sp)
    requires r == [] || !IsSpace(r[|r| - 1])
    ensures NonEmpty(SplitFrom(r + sp, cur)) == NonEmpty(SplitFrom(r, cur))
    decreases |r|
  {
    if r == [] {
      assert r + sp == sp;
      if sp != [] {
        DropAllSpace(sp);
        assert SplitFrom(sp, cur) == [cur] + [[]];
        assert NonEmpty([[]]) == [];
        assert NonEmpty([cur] + [[]]) == NonEmpty([cur]);
      }
    } else if !IsSpace(r[0]) {
      assert (r + sp)[1..] == r[1..] + sp;
      TrailingSpaceAddsNoWord(r[1..], sp, cur + [r[0]]);
    } else {
      assert !AllSpace(r);
      DropSpaceAppend(r, sp);
      DropSpaceFacts(r);
      var d := DropSpace(r);
      assert d[|d| - 1] == r[|r| - 1];
      TrailingSpaceAddsNoWord(d, sp, []);
      var x := SplitFrom(d + sp, []);
      var y := SplitFrom(d, []);
      assert ([cur] + x)[1..] == x && ([cur] + y)[1..] == y;
    }
  }

  /** Trimming the input changes none of its tokens. */
  lemma TrimKeepsTokens(text: string)
    ensures Tokenize(Trim(text)) == Tokenize(text)
  {
    var d := DropSpace(text);
    DropSpaceFacts(text);
    DropTrailingSpaceFacts(d);
    var r := DropTrailingSpace(d);
    assert d == r + d[|r|..];
    TrailingSpaceAddsNoWord(r, d[|r|..], []);
    if text != [] && IsSpace(text[0]) {
      var x := SplitFrom(d, []);
      assert Split(text) == [[]] + x;
      assert ([[]] + x)[1..] == x;
    }
    assert NonEmpty(Split(Trim(text))) == NonEmpty(Split(text));
  }
}

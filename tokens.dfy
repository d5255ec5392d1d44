/** Whitespace tokenisation with the meaning of Python's argument-less
    `str.split()`: a line is cut at every run of whitespace, and leading and
    trailing whitespace yield no empty tokens. */
module Tokens {

  /** The characters Python's `str.isspace()` accepts, i.e. the separators
      that `str.split()` with no argument splits on. */
  predicate IsSpace(c: char)
  {
    || c == ' '
    || '\t' <= c <= '\r'                       // \t \n \v \f \r
    || '\U{001C}' <= c <= '\U{001F}'           // file, group, record, unit separators
    || c == '\U{0085}' || c == '\U{00A0}' || c == '\U{1680}'
    || '\U{2000}' <= c <= '\U{200A}'
    || c == '\U{2028}' || c == '\U{2029}' || c == '\U{202F}' || c == '\U{205F}'
    || c == '\U{3000}'
  }

  /** A token as `str.split()` produces it: non-empty, no whitespace inside. */
  predicate IsToken(w: string)
  {
    |w| > 0 && forall k :: 0 <= k < |w| ==> !IsSpace(w[k])
  }

  predicate AllSpace(s: string)
  {
    forall k :: 0 <= k < |s| ==> IsSpace(s[k])
  }

  /** Length of the longest whitespace-free prefix of `s`. */
  function WordLen(s: string): (n: nat)
    ensures n <= |s|
    ensures forall k :: 0 <= k < n ==> !IsSpace(s[k])
    ensures n == |s| || IsSpace(s[n])
  {
    if s == [] || IsSpace(s[0]) then 0 else 1 + WordLen(s[1..])
  }

  /** `s.split()`. */
  function Split(s: string): (ws: seq<string>)
    ensures forall i :: 0 <= i < |ws| ==> IsToken(ws[i])
    decreases |s|
  {
    if s == [] then []
    else if IsSpace(s[0]) then Split(s[1..])
    else
      var n := WordLen(s);
      [s[..n]] + Split(s[n..])
  }

  /** `" ".join(ws)`: the tokens with one blank between neighbours. */
  function Join(ws: seq<string>): string
  {
    if |ws| == 0 then ""
    else if |ws| == 1 then ws[0]
    else ws[0] + " " + Join(ws[1..])
  }

  /** Concatenation of all tokens. */
  function Concat(ws: seq<string>): string
  {
    if ws == [] then [] else ws[0] + Concat(ws[1..])
  }

  /** `s` with every whitespace character deleted. */
  function NonSpace(s: string): string
  {
    if s == [] then []
    else if IsSpace(s[0]) then NonSpace(s[1..])
    else [s[0]] + NonSpace(s[1..])
  }

  /** A line yields no token at all exactly when it is made of whitespace
      only (a blank line, "\n" included). */
  lemma {:induction false} SplitEmptyIff(s: string)
    ensures Split(s) == [] <==> AllSpace(s)
    decreases |s|
  {
    if s != [] {
      SplitEmptyIff(s[1..]);
      if IsSpace(s[0]) {
        assert AllSpace(s) <==> AllSpace(s[1..]) by {
          forall k | 0 <= k < |s[1..]| ensures s[1..][k] == s[k + 1] { }
          if AllSpace(s[1..]) {
            forall k | 0 <= k < |s| ensures IsSpace(s[k]) {
              if k > 0 { assert s[k] == s[1..][k - 1]; }
            }
          }
        }
      }
    }
  }

  /** Splitting keeps every non-whitespace character, in order, and nothing
      else: the tokens glued together are the line with its whitespace
      removed. */
  lemma {:induction false} SplitKeepsNonSpace(s: string)
    ensures Concat(Split(s)) == NonSpace(s)
    decreases |s|
  {
    if s != [] {
      if IsSpace(s[0]) {
        SplitKeepsNonSpace(s[1..]);
      } else {
        var n := WordLen(s);
        var ws := Split(s);
        assert ws == [s[..n]] + Split(s[n..]);
        assert ws[1..] == Split(s[n..]);
        SplitKeepsNonSpace(s[n..]);
        NonSpaceOfWord(s, n);
      }
    }
  }

  /** Skipping a whitespace-free prefix of length `n` in `NonSpace`. */
  lemma {:induction false} NonSpaceOfWord(s: string, n: nat)
    requires n <= |s|
    requires forall k :: 0 <= k < n ==> !IsSpace(s[k])
    ensures NonSpace(s) == s[..n] + NonSpace(s[n..])
    decreases n
  {
    if n > 0 {
      NonSpaceOfWord(s[1..], n - 1);
      assert s[1..][n - 1..] == s[n..];
      assert s[..n] == [s[0]] + s[1..][..n - 1];
    }
  }

  /** A whitespace-free word followed by whitespace (or by nothing) is one
      complete token. */
  lemma {:induction false} WordLenOfToken(w: string, rest: string)
    requires forall k :: 0 <= k < |w| ==> !IsSpace(w[k])
    requires rest == [] || IsSpace(rest[0])
    ensures WordLen(w + rest) == |w|
    decreases |w|
  {
    if w != [] {
      assert (w + rest)[1..] == w[1..] + rest;
      WordLenOfToken(w[1..], rest);
    } else {
      assert w + rest == rest;
    }
  }

  /** Round trip: joining tokens with blanks and splitting again gives back
      exactly the tokens. */
  lemma {:induction false} SplitJoin(ws: seq<string>)
    requires forall i :: 0 <= i < |ws| ==> IsToken(ws[i])
    ensures Split(Join(ws)) == ws
    decreases |ws|
  {
    if |ws| == 1 {
      var w := ws[0];
      assert w + [] == w;
      WordLenOfToken(w, []);
      assert w[..|w|] == w && w[|w|..] == [];
    } else if |ws| > 1 {
      assert Join(ws) == ws[0] + " " + Join(ws[1..]);
      SplitWord(ws[0], " ", Join(ws[1..]));
      SplitJoin(ws[1..]);
      assert ws == [ws[0]] + ws[1..];
    }
  }

  /** Leading whitespace, however long, yields no token: an indented line
      splits like the line without its indentation. */
  lemma {:induction false} SplitLeadingSpace(sp: string, s: string)
    requires AllSpace(sp)
    ensures Split(sp + s) == Split(s)
    decreases |sp|
  {
    if sp == [] {
      assert sp + s == s;
    } else {
      assert (sp + s)[0] == sp[0];
      assert (sp + s)[1..] == sp[1..] + s;
      assert AllSpace(sp[1..]) by {
        forall k | 0 <= k < |sp[1..]| ensures IsSpace(sp[1..][k]) {
          assert sp[1..][k] == sp[k + 1];
        }
      }
      SplitLeadingSpace(sp[1..], s);
    }
  }

  /** A token followed by a run of one or more whitespace characters is cut
      off as exactly that token, and the run separates it from the rest:
      `"a  b".split() == ["a", "b"]`, never `["ab"]`. */
  lemma SplitWord(w: string, sp: string, s: string)
    requires IsToken(w) && |sp| > 0 && AllSpace(sp)
    ensures Split(w + sp + s) == [w] + Split(s)
  {
    var x := w + sp + s;
    assert x == w + (sp + s);
    assert (sp + s)[0] == sp[0];
    WordLenOfToken(w, sp + s);
    assert x[..|w|] == w;
    assert x[|w|..] == sp + s;
    SplitLeadingSpace(sp, s);
  }

  /** Whitespace after the last token does not change the split: a line
      read with its trailing newline splits like the bare line. */
  lemma {:induction false} SplitTrailingSpace(s: string, c: char)
    requires IsSpace(c)
    ensures Split(s + [c]) == Split(s)
    decreases |s|
  {
    if s == [] {
      assert [c][1..] == [];
    } else if IsSpace(s[0]) {
      assert (s + [c])[1..] == s[1..] + [c];
      SplitTrailingSpace(s[1..], c);
    } else {
      var n := WordLen(s);
      WordLenOfToken(s[..n], s[n..] + [c]);
      assert s + [c] == s[..n] + (s[n..] + [c]);
      assert (s + [c])[..n] == s[..n];
      assert (s + [c])[n..] == s[n..] + [c];
      if n == |s| {
        assert s[n..] == [];
        assert Split([c]) == [] by { assert [c][1..] == []; }
      } else {
        assert n < |s|;
        SplitTrailingSpace(s[n..], c);
      }
    }
  }
}

/** The JavaScript string operations the command dispatcher uses:
    `toLowerCase`, `trim`, `startsWith`, `split(/\s+/)` and `join`. Strings
    are sequences of code points. */
module JsStrings {
  import opened Sequences

  /** The characters `trim` removes and `\s` matches: the ECMAScript
      WhiteSpace and LineTerminator code points. */
  predicate IsSpace(c: char) {
    var n := c as int;
    || 0x09 <= n <= 0x0D
    || n == 0x20 || n == 0xA0 || n == 0x1680
    || 0x2000 <= n <= 0x200A
    || n == 0x2028 || n == 0x2029 || n == 0x202F || n == 0x205F || n == 0x3000 || n == 0xFEFF
  }

  predicate NoSpace(s: string) {
    forall i :: 0 <= i < |s| ==> !IsSpace(s[i])
  }

  /** Lower-casing restricted to the ASCII capitals. */
  function LowerChar(c: char): (r: char)
    ensures 'A' <= c <= 'Z' ==> r as int == c as int + 32
    ensures !('A' <= c <= 'Z') ==> r == c
    ensures !('A' <= r <= 'Z')
  {
    if 'A' <= c <= 'Z' then (c as int + 32) as char else c
  }

  function ToLower(s: string): (r: string)
    ensures |r| == |s|
    ensures forall i :: 0 <= i < |s| ==> r[i] == LowerChar(s[i])
  {
    seq(|s|, i requires 0 <= i < |s| => LowerChar(s[i]))
  }

  /** Lower-casing is the identity on a string without ASCII capitals, which
      covers every Persian command word, and so it is idempotent. */
  lemma ToLowerIdentity(s: string)
    requires forall i :: 0 <= i < |s| ==> !('A' <= s[i] <= 'Z')
    ensures ToLower(s) == s
  {
  }

  lemma ToLowerIdempotent(s: string)
    ensures ToLower(ToLower(s)) == ToLower(s)
  {
    ToLowerIdentity(ToLower(s));
  }

  /** `trimStart`: drops the leading whitespace. */
  function TrimStart(s: string): (r: string)
    ensures |r| <= |s| && r == s[|s| - |r|..]
    ensures r == [] || !IsSpace(r[0])
    ensures forall i :: 0 <= i < |s| - |r| ==> IsSpace(s[i])
    ensures s != [] && IsSpace(s[0]) ==> |r| < |s|
  {
    if s != [] && IsSpace(s[0]) then TrimStart(s[1..]) else s
  }

  /** `trimEnd`: drops the trailing whitespace. */
  function TrimEnd(s: string): (r: string)
    ensures |r| <= |s| && r == s[..|r|]
    ensures r == [] || !IsSpace(r[|r| - 1])
    ensures forall i :: |r| <= i < |s| ==> IsSpace(s[i])
  {
    if s != [] && IsSpace(s[|s| - 1]) then TrimEnd(s[..|s| - 1]) else s
  }

  /** `trim`. */
  function Trim(s: string): (r: string)
    ensures r == [] || (!IsSpace(r[0]) && !IsSpace(r[|r| - 1]))
  {
    TrimEnd(TrimStart(s))
  }

  /** The longest prefix of `s` without whitespace. */
  function TakeWord(s: string): (w: string)
    ensures w <= s
    ensures NoSpace(w)
    ensures |w| == |s| || IsSpace(s[|w|])
  {
    if s != [] && !IsSpace(s[0]) then [s[0]] + TakeWord(s[1..]) else []
  }

  /** `s.split(/\s+/)`: the pieces between maximal runs of whitespace. A
      leading or trailing run yields an empty first or last piece, and the
      empty string splits into one empty piece. */
  function Split(s: string): (r: seq<string>)
    ensures |r| > 0
    ensures forall i :: 0 <= i < |r| ==> NoSpace(r[i])
    decreases |s|
  {
    var w := TakeWord(s);
    var rest := s[|w|..];
    if rest == [] then [w] else [w] + Split(TrimStart(rest))
  }

  /** `Boolean` as a filter: keeps the non-empty strings. */
  predicate NonEmpty(w: string) {
    w != []
  }

  /** `ws.join(sep)`. */
  function Join(ws: seq<string>, sep: string): string {
    if ws == [] then []
    else if |ws| == 1 then ws[0]
    else ws[0] + sep + Join(ws[1..], sep)
  }

  function Concat(ws: seq<string>): string {
    if ws == [] then [] else ws[0] + Concat(ws[1..])
  }

  /** The non-whitespace characters of `s`, in order. */
  function Visible(s: string): (r: string)
    ensures |r| <= |s|
  {
    if s == [] then []
    else if IsSpace(s[0]) then Visible(s[1..])
    else [s[0]] + Visible(s[1..])
  }

  lemma {:induction false} VisibleAppend(a: string, b: string)
    ensures Visible(a + b) == Visible(a) + Visible(b)
  {
    if a == [] {
      assert a + b == b;
    } else {
      assert (a + b)[0] == a[0] && (a + b)[1..] == a[1..] + b;
      VisibleAppend(a[1..], b);
    }
  }

  lemma {:induction false} VisibleOfNoSpace(s: string)
    requires NoSpace(s)
    ensures Visible(s) == s
  {
    if s != [] {
      VisibleOfNoSpace(s[1..]);
    }
  }

  lemma {:induction false} VisibleOfSpaces(s: string)
    requires forall i :: 0 <= i < |s| ==> IsSpace(s[i])
    ensures Visible(s) == []
  {
    if s != [] {
      VisibleOfSpaces(s[1..]);
    }
  }

  /** Leading whitespace contributes nothing. */
  lemma {:induction false} VisibleDropHead(s: string, n: nat)
    requires n <= |s|
    requires forall i :: 0 <= i < n ==> IsSpace(s[i])
    ensures Visible(s[n..]) == Visible(s)
  {
    if n > 0 {
      assert s[1..][n - 1..] == s[n..];
      VisibleDropHead(s[1..], n - 1);
    }
  }

  lemma VisibleSplitAt(s: string, n: nat)
    requires n <= |s|
    ensures Visible(s) == Visible(s[..n]) + Visible(s[n..])
  {
    assert s == s[..n] + s[n..];
    VisibleAppend(s[..n], s[n..]);
  }

  lemma SpacesFrom(s: string, n: nat)
    requires n <= |s|
    requires forall i :: n <= i < |s| ==> IsSpace(s[i])
    ensures Visible(s[n..]) == []
  {
    var tail := s[n..];
    forall i | 0 <= i < |tail| ensures IsSpace(tail[i]) {
      assert tail[i] == s[n + i];
    }
    VisibleOfSpaces(tail);
  }

  /** Trailing whitespace contributes nothing. */
  lemma VisibleDropTail(s: string, n: nat)
    requires n <= |s|
    requires forall i :: n <= i < |s| ==> IsSpace(s[i])
    ensures Visible(s[..n]) == Visible(s)
  {
    VisibleSplitAt(s, n);
    SpacesFrom(s, n);
    assert Visible(s[..n]) + [] == Visible(s[..n]);
  }

  /** Trimming removes whitespace only. */
  lemma VisibleTrim(s: string)
    ensures Visible(Trim(s)) == Visible(s)
  {
    var t := TrimStart(s);
    VisibleDropHead(s, |s| - |t|);
    var u := TrimEnd(t);
    VisibleDropTail(t, |u|);
  }

  /** Splitting loses exactly the whitespace. */
  lemma {:induction false} SplitVisible(s: string)
    ensures Concat(Split(s)) == Visible(s)
    decreases |s|
  {
    var rest := s[|TakeWord(s)|..];
    if rest == [] {
      SplitVisibleLast(s);
    } else {
      SplitVisible(TrimStart(rest));
      SplitVisibleMore(s);
    }
  }

  /** The first word is visible as it is. */
  lemma VisibleFirstWord(s: string)
    ensures Visible(s) == TakeWord(s) + Visible(s[|TakeWord(s)|..])
  {
    var w := TakeWord(s);
    var rest := s[|w|..];
    assert s == w + rest;
    VisibleAppend(w, rest);
    VisibleOfNoSpace(w);
  }

  lemma SplitVisibleLast(s: string)
    requires s[|TakeWord(s)|..] == []
    ensures Concat(Split(s)) == Visible(s)
  {
    var w := TakeWord(s);
    VisibleFirstWord(s);
    assert Split(s) == [w];
    assert Concat([w]) == w + Concat([]);
  }

  lemma SplitVisibleMore(s: string)
    requires s[|TakeWord(s)|..] != []
    requires Concat(Split(TrimStart(s[|TakeWord(s)|..]))) == Visible(TrimStart(s[|TakeWord(s)|..]))
    ensures Concat(Split(s)) == Visible(s)
  {
    var w := TakeWord(s);
    var rest := s[|w|..];
    var t := TrimStart(rest);
    VisibleFirstWord(s);
    VisibleDropHead(rest, |rest| - |t|);
    assert Split(s) == [w] + Split(t);
    assert ([w] + Split(t))[1..] == Split(t);
  }

  /** Dropping empty pieces does not change their concatenation. */
  lemma {:induction false} ConcatNonEmpty(ws: seq<string>)
    ensures Concat(Filter(ws, NonEmpty)) == Concat(ws)
  {
    if ws != [] {
      ConcatNonEmpty(ws[1..]);
      if NonEmpty(ws[0]) {
        assert Filter(ws, NonEmpty) == [ws[0]] + Filter(ws[1..], NonEmpty);
        assert ([ws[0]] + Filter(ws[1..], NonEmpty))[1..] == Filter(ws[1..], NonEmpty);
      } else {
        assert ws[0] + Concat(ws[1..]) == Concat(ws[1..]);
      }
    }
  }

  /** `s.trim().split(/\s+/).filter(Boolean)`: the whitespace-separated words of `s`. */
  function Words(s: string): (r: seq<string>)
    ensures forall i :: 0 <= i < |r| ==> r[i] != [] && NoSpace(r[i])
  {
    Filter(Split(Trim(s)), NonEmpty)
  }

  /** A word followed by nothing or by whitespace is what TakeWord takes. */
  lemma {:induction false} TakeWordPrefix(w: string, t: string)
    requires NoSpace(w)
    requires t == [] || IsSpace(t[0])
    ensures TakeWord(w + t) == w
  {
    if w == [] {
      assert w + t == t;
    } else {
      assert (w + t)[0] == w[0] && (w + t)[1..] == w[1..] + t;
      assert NoSpace(w[1..]) by {
        forall i | 0 <= i < |w[1..]| ensures !IsSpace(w[1..][i]) {
          assert w[1..][i] == w[i + 1];
        }
      }
      TakeWordPrefix(w[1..], t);
    }
  }

  /** Every piece is a non-empty, whitespace-free word. */
  predicate AllWords(ws: seq<string>) {
    ws == [] || (ws[0] != [] && NoSpace(ws[0]) && AllWords(ws[1..]))
  }

  lemma {:induction false} AllWordsOf(ws: seq<string>)
    requires forall i :: 0 <= i < |ws| ==> ws[i] != [] && NoSpace(ws[i])
    ensures AllWords(ws)
  {
    if ws != [] {
      var tail := ws[1..];
      assert forall i :: 0 <= i < |tail| ==> tail[i] != [] && NoSpace(tail[i]) by {
        forall i | 0 <= i < |tail| ensures tail[i] != [] && NoSpace(tail[i]) {
          assert tail[i] == ws[i + 1];
        }
      }
      AllWordsOf(tail);
    }
  }

  /** Joining words begins with the first word's first character and ends
      with the last word's last character. */
  lemma {:induction false} JoinEnds(ws: seq<string>, sep: string)
    requires ws != []
    requires forall i :: 0 <= i < |ws| ==> ws[i] != []
    ensures Join(ws, sep) != []
    ensures Join(ws, sep)[0] == ws[0][0]
    ensures Join(ws, sep)[|Join(ws, sep)| - 1] == ws[|ws| - 1][|ws[|ws| - 1]| - 1]
  {
    if |ws| > 1 {
      JoinEnds(ws[1..], sep);
    }
  }

  /** A word, one space and a text that starts with a visible character
      split into the word and the pieces of that text. */
  lemma SplitStep(w: string, rest: string)
    requires NoSpace(w)
    requires rest != [] && !IsSpace(rest[0])
    ensures Split(w + " " + rest) == [w] + Split(rest)
  {
    var s := w + " " + rest;
    assert s == w + (" " + rest);
    TakeWordPrefix(w, " " + rest);
    assert s[|w|..] == " " + rest;
    assert (" " + rest)[1..] == rest;
    assert TrimStart(" " + rest) == TrimStart(rest);
  }

  lemma SplitJoinOne(w: string)
    requires NoSpace(w)
    ensures Split(Join([w], " ")) == [w]
  {
    assert Join([w], " ") == w + [];
    TakeWordPrefix(w, []);
  }

  lemma SplitJoinCons(ws: seq<string>)
    requires |ws| > 1 && AllWords(ws)
    ensures Split(Join(ws, " ")) == [ws[0]] + Split(Join(ws[1..], " "))
  {
    var rest := Join(ws[1..], " ");
    assert Join(ws, " ") == ws[0] + " " + rest;
    assert rest != [] && !IsSpace(rest[0]) by {
      AllWordsNonEmpty(ws[1..]);
      JoinEnds(ws[1..], " ");
      assert rest[0] == ws[1][0] && NoSpace(ws[1]);
    }
    SplitStep(ws[0], rest);
  }

  /** Words joined by single spaces split back into the same words. */
  lemma {:induction false} SplitJoin(ws: seq<string>)
    requires ws != [] && AllWords(ws)
    ensures Split(Join(ws, " ")) == ws
    decreases |ws|
  {
    if |ws| == 1 {
      SplitJoinSingle(ws);
    } else {
      SplitJoin(ws[1..]);
      SplitJoinMore(ws);
    }
  }

  lemma SplitJoinSingle(ws: seq<string>)
    requires |ws| == 1 && AllWords(ws)
    ensures Split(Join(ws, " ")) == ws
  {
    SplitJoinOne(ws[0]);
    assert [ws[0]] == ws;
  }

  lemma SplitJoinMore(ws: seq<string>)
    requires |ws| > 1 && AllWords(ws)
    requires Split(Join(ws[1..], " ")) == ws[1..]
    ensures Split(Join(ws, " ")) == ws
  {
    SplitJoinCons(ws);
    assert [ws[0]] + ws[1..] == ws;
  }

  /** Trimming leaves a text that starts and ends with a visible character as it is. */
  lemma TrimVisibleEnds(s: string)
    requires s != [] && !IsSpace(s[0]) && !IsSpace(s[|s| - 1])
    ensures Trim(s) == s
  {
    assert TrimStart(s) == s;
  }

  /** `process` hands a handler exactly the words the speaker said: words
      joined by single spaces come back as the same words, so the split
      falls at the whitespace and nowhere else. */
  lemma WordsJoin(ws: seq<string>)
    requires forall i :: 0 <= i < |ws| ==> ws[i] != [] && NoSpace(ws[i])
    ensures Words(Join(ws, " ")) == ws
  {
    if ws == [] {
      WordsOfNothing();
    } else {
      AllWordsOf(ws);
      assert NoSpace(ws[|ws| - 1]);
      WordsJoinSome(ws);
    }
  }

  lemma WordsJoinSome(ws: seq<string>)
    requires ws != [] && AllWords(ws) && NoSpace(ws[|ws| - 1])
    ensures Words(Join(ws, " ")) == ws
  {
    JoinTrimmed(ws);
    SplitJoin(ws);
    AllWordsKept(ws);
  }

  lemma JoinTrimmed(ws: seq<string>)
    requires ws != [] && AllWords(ws) && NoSpace(ws[|ws| - 1])
    ensures Trim(Join(ws, " ")) == Join(ws, " ")
  {
    AllWordsNonEmpty(ws);
    JoinEnds(ws, " ");
    TrimVisibleEnds(Join(ws, " "));
  }

  lemma AllWordsKept(ws: seq<string>)
    requires AllWords(ws)
    ensures Filter(ws, NonEmpty) == ws
  {
    AllWordsNonEmpty(ws);
    FilterAll(ws, NonEmpty);
  }

  lemma {:induction false} AllWordsNonEmpty(ws: seq<string>)
    requires AllWords(ws)
    ensures forall i :: 0 <= i < |ws| ==> NonEmpty(ws[i])
  {
    if ws != [] {
      AllWordsNonEmpty(ws[1..]);
      assert forall i :: 1 <= i < |ws| ==> ws[i] == ws[1..][i - 1];
    }
  }

  /** The empty text has no words. */
  lemma WordsOfNothing()
    ensures Words([]) == []
  {
    assert Trim([]) == [];
    assert TakeWord([]) == [];
    assert Split([]) == [[]];
    assert Filter([[]], NonEmpty) == [];
  }

  /** The words hold every non-whitespace character of `s`, in order, and nothing else. */
  lemma WordsVisible(s: string)
    ensures Concat(Words(s)) == Visible(s)
  {
    ConcatNonEmpty(Split(Trim(s)));
    SplitVisible(Trim(s));
    VisibleTrim(s);
  }
}

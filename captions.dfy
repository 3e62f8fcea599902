/** The meeting caption buffer's update rule: split the caption on single
    spaces, drop a token equal to the last word, otherwise append it and keep
    the last 20 words. Split and Join follow JavaScript's `split(" ")` and
    `join(" ")` exactly, empty pieces included. */
module Captions {

  const MaxWords := 20

  /** `s.split(" ")`: the pieces between single spaces. "" gives [""], and
      two adjacent spaces give an empty piece. */
  function Split(s: string): (ws: seq<string>)
    ensures |ws| >= 1
    decreases |s|
  {
    if s == [] then [""]
    else if s[0] == ' ' then [""] + Split(s[1..])
    else
      var rest := Split(s[1..]);
      [[s[0]] + rest[0]] + rest[1..]
  }

  /** `ws.join(" ")`. */
  function Join(ws: seq<string>): string
  {
    if |ws| == 0 then ""
    else if |ws| == 1 then ws[0]
    else ws[0] + " " + Join(ws[1..])
  }

  /** `ws.slice(-n)` for n > 0: the last n elements, or all when there are fewer. */
  function LastN<T>(ws: seq<T>, n: nat): (r: seq<T>)
    ensures |r| == if |ws| <= n then |ws| else n
    ensures r == ws[|ws| - |r|..]
  {
    if |ws| <= n then ws else ws[|ws| - n..]
  }

  function Last<T>(ws: seq<T>): T
    requires |ws| >= 1
  {
    ws[|ws| - 1]
  }

  /** updateCaption's state updater. */
  function UpdateCaption(prev: string, text: string): (next: string)
  {
    var words := Split(prev);
    if Last(words) == text then prev
    else
      var newText := if prev != "" then prev + " " + text else text;
      Join(LastN(Split(newText), MaxWords))
  }

  predicate SpaceFree(w: string)
  {
    ' ' !in w
  }

  // ----- split and join -----

  /** Joining the pieces of a split gives back the string. */
  lemma {:induction false} JoinSplit(s: string)
    ensures Join(Split(s)) == s
    decreases |s|
  {
    if s == [] {
    } else if s[0] == ' ' {
      JoinSplit(s[1..]);
      assert Split(s) == [""] + Split(s[1..]);
      assert s == " " + s[1..];
    } else {
      JoinSplit(s[1..]);
      var rest := Split(s[1..]);
      var ws := [[s[0]] + rest[0]] + rest[1..];
      assert Split(s) == ws;
      if |rest| == 1 {
        assert Join(ws) == [s[0]] + rest[0];
        assert Join(rest) == rest[0];
      } else {
        assert ws[1..] == rest[1..];
        assert Join(ws) == [s[0]] + rest[0] + " " + Join(rest[1..]);
        assert Join(rest) == rest[0] + " " + Join(rest[1..]);
      }
      assert s == [s[0]] + s[1..];
    }
  }

  /** Split of a string that starts with a space. */
  lemma SplitSpace(t: string)
    ensures Split([' '] + t) == [""] + Split(t)
  {
    assert ([' '] + t)[1..] == t;
  }

  /** Split of a string that starts with another character: it joins the first piece. */
  lemma SplitChar(c: char, t: string)
    requires c != ' '
    ensures Split([c] + t) == [[c] + Split(t)[0]] + Split(t)[1..]
  {
    assert ([c] + t)[1..] == t;
  }

  /** Concatenation regroups; a lemma of its own, so that the proofs below
      do not search for it among their other sequence terms. */
  lemma Associative<T>(x: seq<T>, y: seq<T>, z: seq<T>)
    ensures x + (y + z) == (x + y) + z
  {
  }

  /** The head and the tail of a concatenation with a non-empty left side. */
  lemma ConcatHeadTail<T>(x: seq<T>, y: seq<T>)
    requires |x| >= 1
    ensures (x + y)[0] == x[0] && (x + y)[1..] == x[1..] + y
  {
  }

  /** A space put in front of a string whose pieces are those of `t`
      followed by those of `b` starts a new empty piece, as it would in front
      of `t` alone. */
  lemma SplitConsSpace(u: string, t: string, b: string)
    requires Split(u) == Split(t) + Split(b)
    ensures Split([' '] + u) == Split([' '] + t) + Split(b)
  {
    SplitSpace(u);
    SplitSpace(t);
    Associative([""], Split(t), Split(b));
  }

  /** Any other character lands in the first piece, as it would in front of
      `t` alone. */
  lemma SplitConsChar(c: char, u: string, t: string, b: string)
    requires c != ' '
    requires Split(u) == Split(t) + Split(b)
    ensures Split([c] + u) == Split([c] + t) + Split(b)
  {
    var rt, rb := Split(t), Split(b);
    SplitChar(c, u);
    SplitChar(c, t);
    ConcatHeadTail(rt, rb);
    Associative([[c] + rt[0]], rt[1..], rb);
  }

  /** Splitting at a space concatenates the splits of both sides. */
  lemma {:induction false} SplitAtSpace(a: string, b: string)
    ensures Split(a + " " + b) == Split(a) + Split(b)
    decreases |a|
  {
    if a == [] {
      assert a + " " + b == [' '] + b;
      SplitSpace(b);
    } else {
      var c, t := a[0], a[1..];
      assert a == [c] + t;
      SplitAtSpace(t, b);
      if c == ' ' {
        SplitConsSpace(t + " " + b, t, b);
      } else {
        SplitConsChar(c, t + " " + b, t, b);
      }
      assert a + " " + b == [c] + (t + " " + b);
    }
  }

  /** A word without spaces splits into itself. */
  lemma {:induction false} SplitWord(w: string)
    requires SpaceFree(w)
    ensures Split(w) == [w]
    decreases |w|
  {
    if w != [] {
      SplitWord(w[1..]);
      assert [w[0]] + w[1..] == w;
    }
  }

  /** Splitting the join of space-free words gives back the words. */
  lemma {:induction false} SplitJoin(ws: seq<string>)
    requires |ws| >= 1
    requires forall i :: 0 <= i < |ws| ==> SpaceFree(ws[i])
    ensures Split(Join(ws)) == ws
    decreases |ws|
  {
    SplitWord(ws[0]);
    if |ws| > 1 {
      SplitJoin(ws[1..]);
      SplitAtSpace(ws[0], Join(ws[1..]));
      assert ws == [ws[0]] + ws[1..];
    }
  }

  /** No piece of a split contains a space. */
  lemma {:induction false} SplitPiecesSpaceFree(s: string)
    ensures forall i :: 0 <= i < |Split(s)| ==> SpaceFree(Split(s)[i])
    decreases |s|
  {
    if s != [] {
      SplitPiecesSpaceFree(s[1..]);
      var rest := Split(s[1..]);
      if s[0] != ' ' {
        assert SpaceFree(rest[0]);
        assert SpaceFree([s[0]] + rest[0]);
      }
    }
  }

  // ----- one update -----

  /** The words of the caption after any update: unchanged when the token
      repeats the last word; otherwise the last 20 words of the old words
      followed by the token's own words. */
  lemma UpdateWords(prev: string, text: string)
    ensures Last(Split(prev)) == text ==> UpdateCaption(prev, text) == prev
    ensures Last(Split(prev)) != text && prev != "" ==>
      Split(UpdateCaption(prev, text)) == LastN(Split(prev) + Split(text), MaxWords)
    ensures Last(Split(prev)) != text && prev == "" ==>
      Split(UpdateCaption(prev, text)) == LastN(Split(text), MaxWords)
  {
    if Last(Split(prev)) != text {
      var newText := if prev != "" then prev + " " + text else text;
      if prev != "" {
        SplitAtSpace(prev, text);
      }
      var kept := LastN(Split(newText), MaxWords);
      SplitPiecesSpaceFree(newText);
      assert |kept| >= 1;
      SplitJoin(kept);
    }
  }

  /** Whatever happens, an update leaves at most 20 words behind when it
      started from at most 20; a change always leaves at most 20. */
  lemma UpdateBounded(prev: string, text: string)
    ensures UpdateCaption(prev, text) != prev ==> |Split(UpdateCaption(prev, text))| <= MaxWords
    ensures |Split(prev)| <= MaxWords ==> |Split(UpdateCaption(prev, text))| <= MaxWords
  {
    UpdateWords(prev, text);
  }

  /** Updating an empty caption with a token of at most 20 words yields the token. */
  lemma UpdateEmpty(text: string)
    requires |Split(text)| <= MaxWords
    ensures UpdateCaption("", text) == text
  {
    if text != "" {
      JoinSplit(text);
    }
  }

  /** The last n of a sequence with one element more: that element last,
      after a suffix of the sequence. */
  lemma LastNSnoc<T>(s: seq<T>, x: T, n: nat)
    requires n >= 1
    ensures var r := LastN(s + [x], n);
            |r| >= 1 && Last(r) == x &&
            |r| - 1 <= |s| && r[..|r| - 1] == s[|s| - (|r| - 1)..]
  {
    var all := s + [x];
    var r := LastN(all, n);
    assert r[..|r| - 1] == all[|all| - |r|..|all| - 1];
  }

  /** A new single-word token ends the caption, and the words before it are a
      suffix of the old caption's words. */
  lemma UpdateAppendsToken(prev: string, text: string)
    requires SpaceFree(text)
    requires Last(Split(prev)) != text
    ensures Last(Split(UpdateCaption(prev, text))) == text
    ensures var ws := Split(UpdateCaption(prev, text));
            var before := Split(prev);
            |ws| - 1 <= |before| && ws[..|ws| - 1] == before[|before| - (|ws| - 1)..]
  {
    UpdateWords(prev, text);
    SplitWord(text);
    if prev != "" {
      LastNSnoc(Split(prev), text, MaxWords);
    } else {
      assert Split(UpdateCaption(prev, text)) == [text];
    }
  }

  // ----- a stream of tokens -----

  /** The caption after a sequence of tokens, starting from "". */
  function Caption(tokens: seq<string>): string
  {
    if tokens == [] then "" else UpdateCaption(Caption(tokens[..|tokens| - 1]), Last(tokens))
  }

  /** The tokens with every immediate repetition removed. */
  function Dedup(tokens: seq<string>): (r: seq<string>)
    ensures |r| <= |tokens|
    ensures tokens != [] ==> r != [] && Last(r) == Last(tokens)
    ensures forall i :: 0 <= i < |r| ==> r[i] in tokens
  {
    if |tokens| <= 1 then tokens
    else
      var init := tokens[..|tokens| - 1];
      if Last(tokens) == Last(init) then Dedup(init) else Dedup(init) + [Last(tokens)]
  }

  predicate Words(tokens: seq<string>)
  {
    forall i :: 0 <= i < |tokens| ==> tokens[i] != "" && SpaceFree(tokens[i])
  }

  lemma LastNTwice<T>(s: seq<T>, x: T, n: nat)
    requires n >= 1
    ensures LastN(LastN(s, n) + [x], n) == LastN(s + [x], n)
  {
  }

  /** One more token on top of a caption whose words are known. */
  lemma CaptionStep(prev: string, d: seq<string>, t: string)
    requires d != [] && Words(d) && t != "" && SpaceFree(t)
    requires Split(prev) == LastN(d, MaxWords)
    ensures t == Last(d) ==> UpdateCaption(prev, t) == prev
    ensures t != Last(d) ==> Split(UpdateCaption(prev, t)) == LastN(d + [t], MaxWords)
  {
    assert Last(Split(prev)) == Last(d);
    var w := Split(prev)[0];
    assert w in d;
    assert prev != "";
    SplitWord(t);
    UpdateWords(prev, t);
    if t != Last(d) {
      LastNTwice(d, t, MaxWords);
    }
  }

  lemma WordsPrefix(tokens: seq<string>, k: nat)
    requires Words(tokens) && k <= |tokens|
    ensures Words(tokens[..k])
  {
  }

  lemma DedupWords(tokens: seq<string>)
    requires Words(tokens)
    ensures Words(Dedup(tokens))
  {
  }

  /** After a stream of non-empty single-word tokens, the caption's words are
      the last 20 of the tokens with immediate repeats removed. */
  lemma {:induction false} CaptionWords(tokens: seq<string>)
    requires Words(tokens)
    ensures tokens == [] ==> Caption(tokens) == ""
    ensures tokens != [] ==> Split(Caption(tokens)) == LastN(Dedup(tokens), MaxWords)
    decreases |tokens|
  {
    if tokens != [] {
      var n := |tokens| - 1;
      var init, t := tokens[..n], tokens[n];
      InitLast(tokens);
      DedupSnoc(init, t);
      WordsPrefix(tokens, n);
      CaptionWords(init);
      assert Caption(tokens) == UpdateCaption(Caption(init), t);
      if init == [] {
        SplitWord(t);
        UpdateWords("", t);
      } else {
        DedupWords(init);
        CaptionStep(Caption(init), Dedup(init), t);
      }
    }
  }

  lemma DedupScenario(h: string, y: string, n: string)
    requires h != y && y != n
    ensures Dedup([h, h, y, y, n]) == [h, y, n]
  {
    assert [h, h][..1] == [h];
    assert Dedup([h, h]) == [h];
    assert [h, h, y][..2] == [h, h];
    assert Dedup([h, h, y]) == [h, y];
    assert [h, h, y, y][..3] == [h, h, y];
    assert Dedup([h, h, y, y]) == [h, y];
    assert [h, h, y, y, n][..4] == [h, h, y, y];
  }

  /** Three words joined. */
  lemma JoinThree(h: string, y: string, n: string)
    ensures Join([h, y, n]) == h + " " + y + " " + n
  {
    assert [h, y, n][1..] == [y, n];
    assert [y, n][1..] == [n];
    assert Join([y, n]) == y + " " + n;
    Associative(h + " ", y + " ", n);
    Associative(h, " ", y);
    Associative(h + " " + y, " ", n);
  }

  /** Repeated gestures collapse: two of one word, two of a second and one of
      a third give the three words, as in Hello, Hello, Yes, Yes, No reading
      "Hello Yes No". */
  lemma RepeatsCollapse(h: string, y: string, n: string)
    requires Words([h, y, n])
    requires h != y && y != n
    ensures Caption([h, h, y, y, n]) == h + " " + y + " " + n
  {
    var ts := [h, h, y, y, n];
    assert Words(ts) by {
      forall i | 0 <= i < |ts|
        ensures ts[i] != "" && SpaceFree(ts[i])
      {
        assert ts[i] in [h, y, n];
      }
    }
    CaptionWords(ts);
    DedupScenario(h, y, n);
    JoinSplit(Caption(ts));
    JoinThree(h, y, n);
  }

  /** A non-empty sequence is its initial part followed by its last element. */
  lemma InitLast<T>(s: seq<T>)
    requires s != []
    ensures s == s[..|s| - 1] + [s[|s| - 1]]
  {
  }

  /** One token more: it is dropped exactly when it repeats the last one. */
  lemma DedupSnoc(init: seq<string>, t: string)
    ensures Dedup(init + [t]) == if init != [] && t == Last(init) then Dedup(init) else Dedup(init) + [t]
  {
    var s := init + [t];
    assert s[..|s| - 1] == init;
  }

  /** Tokens that never repeat back to back are all kept. */
  lemma {:induction false} DedupDistinct(tokens: seq<string>)
    requires forall i :: 0 < i < |tokens| ==> tokens[i] != tokens[i - 1]
    ensures Dedup(tokens) == tokens
    decreases |tokens|
  {
    if tokens != [] {
      var n := |tokens| - 1;
      var init, t := tokens[..n], tokens[n];
      assert forall i :: 0 < i < |init| ==> init[i] != init[i - 1] by {
        forall i | 0 < i < |init|
          ensures init[i] != init[i - 1]
        {
          assert init[i] == tokens[i] && init[i - 1] == tokens[i - 1];
        }
      }
      DedupDistinct(init);
      InitLast(tokens);
      DedupSnoc(init, t);
    }
  }

  /** More than 20 distinct tokens leave exactly the last 20, in order. */
  lemma KeepsLastTwenty(tokens: seq<string>)
    requires Words(tokens)
    requires |tokens| >= MaxWords
    requires forall i :: 0 < i < |tokens| ==> tokens[i] != tokens[i - 1]
    ensures Split(Caption(tokens)) == tokens[|tokens| - MaxWords..]
  {
    CaptionWords(tokens);
    DedupDistinct(tokens);
    assert LastN(tokens, MaxWords) == tokens[|tokens| - MaxWords..];
  }
}

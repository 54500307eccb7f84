/**
 Log patterns: a line with its long identifiers and numbers replaced, cut at 160 characters
 (ASCII strings).
 */
module LogPatterns {
  import opened Ascii
  import R = Redaction

  predicate IsWordChar(c: char) {
    IsAlnum(c) || 'A' <= c <= 'Z' || c == '_'
  }

  predicate IsLongId(word: string) {
    |word| >= 8 && forall i :: 0 <= i < |word| ==> IsDigit(word[i]) || 'a' <= word[i] <= 'f'
  }

  predicate IsNumber(word: string) {
    word != "" && forall i :: 0 <= i < |word| ==> IsDigit(word[i])
  }

  const CUT := 160

  const ID_TAG := "<id>"

  const NUMBER_TAG := "<number>"

  /** Replaces whole words (maximal runs of word characters): what \b...\b around a class of word characters does. */
  function ReplaceWords(s: string, chosen: string -> bool, tag: string): string
    decreases |s|
  {
    if s == "" then ""
    else
      var n := R.RunLength(s, IsWordChar);
      if n == 0 then [s[0]] + ReplaceWords(s[1..], chosen, tag)
      else (if chosen(s[..n]) then tag else s[..n]) + ReplaceWords(s[n..], chosen, tag)
  }

  /** Both replacements. */
  function Masked(line: string): string {
    ReplaceWords(ReplaceWords(line, IsLongId, ID_TAG), IsNumber, NUMBER_TAG)
  }

  function Normalise(line: string): string {
    var s := Masked(line);
    if |s| > CUT then s[..CUT] else s
  }

  // ---------------------------------------------------------------- maximal words

  predicate AllWord(s: string) {
    forall i :: 0 <= i < |s| ==> IsWordChar(s[i])
  }

  /** `s[i..j]` is a word that cannot be extended on either side. */
  predicate MaximalWord(s: string, i: nat, j: nat) {
    && i < j <= |s| && (forall k :: i <= k < j ==> IsWordChar(s[k]))
    && (i > 0 ==> !IsWordChar(s[i - 1])) && (j < |s| ==> !IsWordChar(s[j]))
  }

  /** No maximal word of `s` has the property. */
  ghost predicate Lacks(s: string, p: string -> bool) {
    forall i: nat, j: nat :: MaximalWord(s, i, j) ==> !p(s[i..j])
  }

  /** A word can be put in front of a text that does not go on with it. */
  predicate Separate(s: string) {
    s != "" ==> !IsWordChar(s[0])
  }

  lemma RunOfWord(word: string, rest: string)
    requires AllWord(word) && Separate(rest)
    ensures R.RunLength(word + rest, IsWordChar) == |word|
  {
    R.RunIs(word + rest, IsWordChar, |word|);
  }

  /** The first piece of a text: one other character, or a maximal word. */
  lemma FirstPiece(s: string) returns (head: string, rest: string)
    requires s != ""
    ensures s == head + rest && head != ""
    ensures (|head| == 1 && !IsWordChar(head[0])) || (AllWord(head) && Separate(rest))
    ensures R.RunLength(s, IsWordChar) == if IsWordChar(head[0]) then |head| else 0
  {
    var n := R.RunLength(s, IsWordChar);
    if n == 0 { head, rest := [s[0]], s[1..]; } else { head, rest := s[..n], s[n..]; }
  }

  /** The maximal words behind a first piece are those of the rest, shifted. */
  lemma WordsBehind(head: string, rest: string, i: nat, j: nat)
    requires head != "" && ((|head| == 1 && !IsWordChar(head[0])) || (AllWord(head) && Separate(rest)))
    ensures MaximalWord(rest, i, j) <==> MaximalWord(head + rest, |head| + i, |head| + j)
    ensures i < j <= |rest| ==> (head + rest)[|head| + i..|head| + j] == rest[i..j]
  {
    var s := head + rest;
    assert forall k :: 0 <= k < |rest| ==> s[|head| + k] == rest[k];
    assert s[|head| - 1] == head[|head| - 1];
  }

  /** A maximal word that begins in the first piece is the first piece. */
  lemma WordsInFront(head: string, rest: string, i: nat, j: nat)
    requires head != "" && ((|head| == 1 && !IsWordChar(head[0])) || (AllWord(head) && Separate(rest)))
    requires i < |head|
    ensures MaximalWord(head + rest, i, j) <==> i == 0 && j == |head| && AllWord(head)
  {
    var s := head + rest;
    assert forall k :: 0 <= k < |head| ==> s[k] == head[k];
    assert rest != "" ==> s[|head|] == rest[0];
  }

  lemma LacksPiece(head: string, rest: string, p: string -> bool)
    requires head != "" && ((|head| == 1 && !IsWordChar(head[0])) || (AllWord(head) && Separate(rest)))
    ensures Lacks(head + rest, p) <==> (AllWord(head) ==> !p(head)) && Lacks(rest, p)
  {
    var s := head + rest;
    assert s[0..|head|] == head;
    WordsInFront(head, rest, 0, |head|);
    forall i: nat, j: nat | MaximalWord(rest, i, j) && p(rest[i..j]) ensures !Lacks(s, p) {
      WordsBehind(head, rest, i, j);
      assert MaximalWord(s, |head| + i, |head| + j);
    }
    forall i: nat, j: nat | MaximalWord(s, i, j)
      ensures if i < |head| then s[i..j] == head && AllWord(head)
              else j >= |head| && MaximalWord(rest, i - |head|, j - |head|) && rest[i - |head|..j - |head|] == s[i..j]
    {
      if i < |head| { WordsInFront(head, rest, i, j); } else { WordsBehind(head, rest, i - |head|, j - |head|); }
    }
  }

  // ---------------------------------------------------------------- what the replacement leaves

  lemma ReplacePiece(head: string, rest: string, chosen: string -> bool, tag: string)
    requires head != "" && ((|head| == 1 && !IsWordChar(head[0])) || (AllWord(head) && Separate(rest)))
    ensures ReplaceWords(head + rest, chosen, tag) ==
            (if AllWord(head) && chosen(head) then tag else head) + ReplaceWords(rest, chosen, tag)
  {
    var s := head + rest;
    assert s[..|head|] == head && s[|head|..] == rest;
    if IsWordChar(head[0]) {
      RunOfWord(head, rest);
    } else {
      assert s[0] == head[0];
    }
  }

  /** A tag: a word in angle brackets. */
  predicate IsTag(tag: string, word: string) {
    tag == "<" + word + ">" && word != "" && AllWord(word)
  }

  lemma TagLacks(tag: string, word: string, rest: string, p: string -> bool)
    requires IsTag(tag, word) && !p(word)
    ensures Lacks(tag + rest, p) <==> Lacks(rest, p)
  {
    var close := ">" + rest;
    LacksPiece(">", rest, p);
    LacksPiece(word, close, p);
    LacksPiece("<", word + close, p);
    assert tag + rest == "<" + (word + close);
  }

  lemma ReplacedSeparate(s: string, chosen: string -> bool, tag: string, word: string)
    requires Separate(s) && IsTag(tag, word)
    ensures Separate(ReplaceWords(s, chosen, tag))
  {
  }

  /** Replacing words leaves none of them, and brings in none of another kind that the tag is not. */
  lemma {:induction false} ReplacedLacks(s: string, chosen: string -> bool, tag: string, word: string, p: string -> bool)
    requires IsTag(tag, word) && !p(word) && (p == chosen || Lacks(s, p))
    ensures Lacks(ReplaceWords(s, chosen, tag), p)
    decreases |s|
  {
    if s != "" {
      hide ReplaceWords, Lacks;
      var head, rest := FirstPiece(s);
      LacksPiece(head, rest, p);
      ReplacePiece(head, rest, chosen, tag);
      ReplacedLacks(rest, chosen, tag, word, p);
      var replaced := ReplaceWords(rest, chosen, tag);
      if AllWord(head) && chosen(head) {
        TagLacks(tag, word, replaced, p);
      } else {
        SeparateReplaced(head, rest, chosen, tag, word);
        LacksPiece(head, replaced, p);
      }
    }
  }

  lemma SeparateReplaced(head: string, rest: string, chosen: string -> bool, tag: string, word: string)
    requires IsTag(tag, word) && head != "" && ((|head| == 1 && !IsWordChar(head[0])) || (AllWord(head) && Separate(rest)))
    ensures (|head| == 1 && !IsWordChar(head[0])) || (AllWord(head) && Separate(ReplaceWords(rest, chosen, tag)))
  {
    if AllWord(head) { ReplacedSeparate(rest, chosen, tag, word); }
  }

  /** A text without such words is left alone. */
  lemma {:induction false} LacksIsFixed(s: string, chosen: string -> bool, tag: string)
    requires Lacks(s, chosen)
    ensures ReplaceWords(s, chosen, tag) == s
    decreases |s|
  {
    if s != "" {
      hide ReplaceWords, Lacks;
      var head, rest := FirstPiece(s);
      LacksPiece(head, rest, chosen);
      ReplacePiece(head, rest, chosen, tag);
      LacksIsFixed(rest, chosen, tag);
    }
  }

  lemma Tags()
    ensures IsTag(ID_TAG, "id") && IsTag(NUMBER_TAG, "number")
    ensures !IsLongId("id") && !IsNumber("id") && !IsLongId("number") && !IsNumber("number")
  {
    assert "number"[0] == 'n' && "id"[0] == 'i';
  }

  /** Before the cut, no maximal word of a pattern is a long identifier or a number. */
  lemma PatternHidesIds(line: string)
    ensures Lacks(Masked(line), IsLongId) && Lacks(Masked(line), IsNumber)
  {
    hide ReplaceWords, Lacks, IsLongId, IsNumber;
    Tags();
    var once := ReplaceWords(line, IsLongId, ID_TAG);
    ReplacedLacks(line, IsLongId, ID_TAG, "id", IsLongId);
    ReplacedLacks(once, IsNumber, NUMBER_TAG, "number", IsLongId);
    ReplacedLacks(once, IsNumber, NUMBER_TAG, "number", IsNumber);
  }

  /** A line without either is its own pattern, up to the cut. */
  lemma PlainIsPattern(line: string)
    requires Lacks(line, IsLongId) && Lacks(line, IsNumber)
    ensures Masked(line) == line
  {
    hide ReplaceWords, Lacks, IsLongId, IsNumber;
    LacksIsFixed(line, IsLongId, ID_TAG);
    LacksIsFixed(line, IsNumber, NUMBER_TAG);
  }

  // ---------------------------------------------------------------- word by word

  /** No word goes on from `a` into `b`. */
  predicate Apart(a: string, b: string) {
    a == "" || b == "" || !IsWordChar(a[|a| - 1]) || !IsWordChar(b[0])
  }

  lemma {:induction false} ReplaceSplit(a: string, b: string, chosen: string -> bool, tag: string)
    requires Apart(a, b)
    ensures ReplaceWords(a + b, chosen, tag) == ReplaceWords(a, chosen, tag) + ReplaceWords(b, chosen, tag)
    decreases |a|
  {
    if a == "" {
      assert a + b == b;
    } else {
      hide ReplaceWords;
      var head, rest := FirstPiece(a);
      PieceBefore(head, rest, b);
      ReplaceSplit(rest, b, chosen, tag);
      ReplaceAfter(head, rest, b, chosen, tag);
    }
  }

  lemma ReplaceAfter(head: string, rest: string, b: string, chosen: string -> bool, tag: string)
    requires head != "" && ((|head| == 1 && !IsWordChar(head[0])) || (AllWord(head) && Separate(rest)))
    requires (|head| == 1 && !IsWordChar(head[0])) || (AllWord(head) && Separate(rest + b))
    requires ReplaceWords(rest + b, chosen, tag) == ReplaceWords(rest, chosen, tag) + ReplaceWords(b, chosen, tag)
    ensures ReplaceWords(head + (rest + b), chosen, tag) == ReplaceWords(head + rest, chosen, tag) + ReplaceWords(b, chosen, tag)
  {
    hide ReplaceWords, Separate;
    ReplacePiece(head, rest, chosen, tag);
    ReplacePiece(head, rest + b, chosen, tag);
    Regroup(if AllWord(head) && chosen(head) then tag else head, ReplaceWords(rest, chosen, tag), ReplaceWords(b, chosen, tag));
  }

  lemma Regroup(a: string, b: string, c: string)
    ensures (a + b) + c == a + (b + c)
  {
  }

  /** The first piece of `a` is the first piece of `a + b`. */
  lemma PieceBefore(head: string, rest: string, b: string)
    requires head != "" && ((|head| == 1 && !IsWordChar(head[0])) || (AllWord(head) && Separate(rest)))
    requires Apart(head + rest, b)
    ensures (head + rest) + b == head + (rest + b) && Apart(rest, b)
    ensures (|head| == 1 && !IsWordChar(head[0])) || (AllWord(head) && Separate(rest + b))
  {
    var a := head + rest;
    if rest == "" {
      assert a[|a| - 1] == head[|head| - 1];
      assert rest + b == b;
    } else {
      assert a[|a| - 1] == rest[|rest| - 1];
      assert (rest + b)[0] == rest[0];
    }
  }

  /** A replacement lets no two texts grow together. */
  lemma ApartReplaced(a: string, b: string, chosen: string -> bool, tag: string, word: string)
    requires Apart(a, b) && IsTag(tag, word)
    ensures Apart(ReplaceWords(a, chosen, tag), ReplaceWords(b, chosen, tag))
  {
    if a != "" && b != "" {
      if IsWordChar(b[0]) { LastReplaced(a, chosen, tag, word); } else { ReplacedSeparate(b, chosen, tag, word); }
    }
  }

  lemma {:induction false} LastReplaced(a: string, chosen: string -> bool, tag: string, word: string)
    requires a != "" && !IsWordChar(a[|a| - 1]) && IsTag(tag, word)
    ensures var r := ReplaceWords(a, chosen, tag); r != "" && !IsWordChar(r[|r| - 1])
    decreases |a|
  {
    hide ReplaceWords;
    var head, rest := FirstPiece(a);
    ReplacePiece(head, rest, chosen, tag);
    if rest == "" {
      assert a[|a| - 1] == head[|head| - 1];
      NothingReplaced(chosen, tag);
    } else {
      assert a[|a| - 1] == rest[|rest| - 1];
      LastReplaced(rest, chosen, tag, word);
    }
  }

  lemma NothingReplaced(chosen: string -> bool, tag: string)
    ensures ReplaceWords("", chosen, tag) == ""
  {
  }

  /** A text that no word joins is masked part by part. */
  lemma MaskedSplit(a: string, b: string)
    requires Apart(a, b)
    ensures Masked(a + b) == Masked(a) + Masked(b)
  {
    hide ReplaceWords, IsLongId, IsNumber;
    Tags();
    ReplaceSplit(a, b, IsLongId, ID_TAG);
    ApartReplaced(a, b, IsLongId, ID_TAG, "id");
    ReplaceSplit(ReplaceWords(a, IsLongId, ID_TAG), ReplaceWords(b, IsLongId, ID_TAG), IsNumber, NUMBER_TAG);
  }

  /** A word of at least eight lower-case hexadecimal digits is an identifier, even when it is a number too. */
  lemma MaskedWord(word: string)
    requires AllWord(word) && word != ""
    ensures Masked(word) ==
            if |word| >= 8 && (forall c :: c in word ==> c in "0123456789abcdef") then "<id>"
            else if forall c :: c in word ==> c in "0123456789" then "<number>"
            else word
  {
    Hexadecimal(word);
    hide ReplaceWords;
    assert word + "" == word;
    ReplacePiece(word, "", IsLongId, ID_TAG);
    NothingReplaced(IsLongId, ID_TAG);
    if IsLongId(word) {
      EmptyLacks(IsNumber);
      assert "" + ID_TAG == ID_TAG && ID_TAG + "" == ID_TAG;
      IdStays("");
    } else {
      assert NUMBER_TAG + "" == NUMBER_TAG;
      ReplacePiece(word, "", IsNumber, NUMBER_TAG);
      NothingReplaced(IsNumber, NUMBER_TAG);
    }
  }

  lemma Hexadecimal(word: string)
    ensures IsLongId(word) <==> |word| >= 8 && forall c :: c in word ==> c in "0123456789abcdef"
    ensures word != "" ==> (IsNumber(word) <==> forall c :: c in word ==> c in "0123456789")
  {
    assert forall c: char :: c in "0123456789" <==> IsDigit(c);
    assert forall c: char :: c in "0123456789abcdef" <==> IsDigit(c) || 'a' <= c <= 'f';
  }

  /** Any other character stays. */
  lemma MaskedOther(c: char)
    requires !IsWordChar(c)
    ensures Masked([c]) == [c]
  {
    hide ReplaceWords;
    assert [c] + "" == [c];
    ReplacePiece([c], "", IsLongId, ID_TAG);
    NothingReplaced(IsLongId, ID_TAG);
    ReplacePiece([c], "", IsNumber, NUMBER_TAG);
    NothingReplaced(IsNumber, NUMBER_TAG);
  }

  // ---------------------------------------------------------------- the cut

  /** Where the word that ends the text begins. */
  function TailStart(s: string): (i: nat)
    ensures i <= |s| && (forall k :: i <= k < |s| ==> IsWordChar(s[k]))
    ensures i > 0 ==> !IsWordChar(s[i - 1])
  {
    if s == "" || !IsWordChar(s[|s| - 1]) then |s| else TailStart(s[..|s| - 1])
  }

  /** The word that ends the text, if one does. */
  function TailWord(s: string): string {
    s[TailStart(s)..]
  }

  lemma TailIsMaximal(s: string, i: nat)
    ensures MaximalWord(s, i, |s|) <==> i == TailStart(s) < |s|
  {
    hide TailStart;
  }

  lemma SliceOfPrefix(s: string, n: nat, i: nat, j: nat)
    requires i <= j <= n <= |s|
    ensures s[..n][i..j] == s[i..j]
  {
  }

  /** Cutting a text can only turn its last word into one of the kind. */
  lemma CutLacksIff(full: string, n: nat, p: string -> bool)
    requires n <= |full| && Lacks(full, p) && !p("")
    ensures Lacks(full[..n], p) <==> !p(TailWord(full[..n]))
  {
    var cut := full[..n];
    TailIsMaximal(cut, TailStart(cut));
    assert cut[TailStart(cut)..|cut|] == TailWord(cut);
    forall i: nat, j: nat | MaximalWord(cut, i, j) && p(cut[i..j]) ensures cut[i..j] == TailWord(cut) {
      if j < n {
        SliceOfPrefix(full, n, i, j);
        assert MaximalWord(full, i, j);
      } else {
        TailIsMaximal(cut, i);
      }
    }
  }

  lemma {:induction false} ReplaceTail(front: string, tail: string, chosen: string -> bool, tag: string)
    requires AllWord(tail) && tail != "" && (front != "" ==> !IsWordChar(front[|front| - 1])) && Lacks(front, chosen)
    ensures ReplaceWords(front + tail, chosen, tag) == front + if chosen(tail) then tag else tail
    decreases |front|
  {
    if front == "" {
      ReplacePiece(tail, "", chosen, tag);
      assert front + tail == tail + "";
    } else {
      hide ReplaceWords, Lacks;
      var head, rest := FirstPiece(front);
      LacksPiece(head, rest, chosen);
      LastOfPieces(head, rest, tail);
      ReplaceTail(rest, tail, chosen, tag);
      ReplaceBehind(head, rest, tail, chosen, tag, if chosen(tail) then tag else tail);
    }
  }

  lemma ReplaceBehind(head: string, rest: string, tail: string, chosen: string -> bool, tag: string, replaced: string)
    requires head != "" && ((|head| == 1 && !IsWordChar(head[0])) || (AllWord(head) && Separate(rest + tail)))
    requires AllWord(head) ==> !chosen(head)
    requires ReplaceWords(rest + tail, chosen, tag) == rest + replaced
    ensures ReplaceWords(head + rest + tail, chosen, tag) == head + rest + replaced
  {
    hide ReplaceWords;
    ReplacePiece(head, rest + tail, chosen, tag);
    assert head + rest + tail == head + (rest + tail);
    assert head + rest + replaced == head + (rest + replaced);
  }

  lemma LastOfPieces(head: string, rest: string, tail: string)
    requires head != "" && ((|head| == 1 && !IsWordChar(head[0])) || (AllWord(head) && Separate(rest)))
    requires !IsWordChar((head + rest)[|head + rest| - 1])
    ensures (head + rest) + tail == head + (rest + tail)
    ensures rest != "" ==> !IsWordChar(rest[|rest| - 1])
    ensures (|head| == 1 && !IsWordChar(head[0])) || (AllWord(head) && Separate(rest + tail))
  {
    if rest == "" {
      assert (head + rest)[|head + rest| - 1] == head[|head| - 1];
    } else {
      assert (head + rest)[|head + rest| - 1] == rest[|rest| - 1];
      assert (rest + tail)[0] == rest[0];
    }
  }

  /** A cut that makes an identifier or a number of the last word is replaced from there on. */
  lemma BrokenTail(full: string, n: nat)
    requires n <= |full| && Lacks(full, IsLongId) && Lacks(full, IsNumber)
    requires IsLongId(TailWord(full[..n])) || IsNumber(TailWord(full[..n]))
    ensures var t := TailStart(full[..n]); t < n && |Masked(full[..n])| > t && Masked(full[..n])[t] == '<' && IsWordChar(full[t])
  {
    hide ReplaceWords, Lacks;
    var cut := full[..n];
    var t, tail := TailStart(cut), TailWord(cut);
    var front := full[..t];
    assert cut == front + tail && full[t] == tail[0];
    FrontLacks(full, t, IsLongId);
    FrontLacks(full, t, IsNumber);
    ReplaceTail(front, tail, IsLongId, ID_TAG);
    if IsLongId(tail) {
      IdStays(front);
    } else {
      ReplaceTail(front, tail, IsNumber, NUMBER_TAG);
    }
  }

  lemma IdStays(front: string)
    requires Lacks(front, IsNumber)
    ensures ReplaceWords(front + ID_TAG, IsNumber, NUMBER_TAG) == front + ID_TAG
  {
    hide ReplaceWords, Lacks, IsNumber;
    Tags();
    EmptyLacks(IsNumber);
    TagLacks(ID_TAG, "id", "", IsNumber);
    assert ID_TAG + "" == ID_TAG;
    JoinLacks(front, ID_TAG, IsNumber);
    LacksIsFixed(front + ID_TAG, IsNumber, NUMBER_TAG);
  }

  lemma EmptyLacks(p: string -> bool)
    ensures Lacks("", p)
  {
  }

  /** What lies before a place that follows a non-word character has only the whole text's words. */
  lemma FrontLacks(full: string, t: nat, p: string -> bool)
    requires t <= |full| && Lacks(full, p) && (t > 0 ==> !IsWordChar(full[t - 1]))
    ensures Lacks(full[..t], p)
  {
    forall i: nat, j: nat | MaximalWord(full[..t], i, j) ensures !p(full[..t][i..j]) {
      assert j < t;
      SliceOfPrefix(full, t, i, j);
      assert MaximalWord(full, i, j);
    }
  }

  lemma {:induction false} JoinLacks(a: string, b: string, p: string -> bool)
    requires Lacks(a, p) && Lacks(b, p) && Separate(b)
    ensures Lacks(a + b, p)
    decreases |a|
  {
    if a == "" {
      assert a + b == b;
    } else {
      hide Lacks;
      var head, rest := FirstPiece(a);
      LacksPiece(head, rest, p);
      JoinLacks(rest, b, p);
      assert a + b == head + (rest + b);
      assert Separate(rest) ==> Separate(rest + b);
      LacksPiece(head, rest + b, p);
    }
  }

  /** A pattern is its own pattern exactly when the cut has not made an identifier or a number of its last word. */
  lemma NormaliseIdempotentIff(line: string)
    ensures Normalise(Normalise(line)) == Normalise(line) <==>
            !IsLongId(TailWord(Normalise(line))) && !IsNumber(TailWord(Normalise(line)))
  {
    hide ReplaceWords, Lacks, TailWord, Masked;
    var full, cut := Masked(line), Normalise(line);
    var n := |cut|;
    assert cut == full[..n];
    PatternHidesIds(line);
    CutLacksIff(full, n, IsLongId);
    CutLacksIff(full, n, IsNumber);
    if Lacks(cut, IsLongId) && Lacks(cut, IsNumber) {
      PlainIsPattern(cut);
    } else {
      BrokenTail(full, n);
      var t := TailStart(cut);
      assert Normalise(cut)[t] == '<' && cut[t] == full[t];
    }
  }

  /** A pattern that was not cut is always its own. */
  lemma UncutIsIdempotent(line: string)
    requires |Masked(line)| <= CUT
    ensures Normalise(Normalise(line)) == Normalise(line)
  {
    PatternHidesIds(line);
    PlainIsPattern(Masked(line));
  }

  /** For instance, `1a` at the end of a long line is no number, but what the cut leaves of it is. */
  lemma CutMakesNumber(line: string)
    requires |line| == CUT + 1 && (forall i :: 0 <= i < CUT - 1 ==> line[i] == ' ') && line[CUT - 1..] == "1a"
    ensures Normalise(line) == line[..CUT] && Normalise(Normalise(line)) != Normalise(line)
  {
    hide ReplaceWords, Masked;
    assert line[CUT - 1] == line[CUT - 1..][0] && line[CUT] == line[CUT - 1..][1];
    forall i: nat, j: nat | MaximalWord(line, i, j) ensures !IsLongId(line[i..j]) && !IsNumber(line[i..j]) {
      assert IsWordChar(line[i]) && IsWordChar(line[CUT]);
      assert i >= CUT - 1 && j == CUT + 1;
      assert i == CUT - 1;
      assert line[i..j][1] == 'a';
    }
    PlainIsPattern(line);
    var cut := line[..CUT];
    TailIsMaximal(cut, CUT - 1);
    assert TailWord(cut) == [cut[CUT - 1]];
    NormaliseIdempotentIff(line);
  }
}

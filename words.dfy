/**
 * Word encoding: the per-line part of load_words. A line's leading run of
 * letters becomes STAR, the letters as codes 1..26 (case folded), STAR.
 */
module Words {
  import opened Consts

  datatype LoadError = WordTooLong | TooManyWords
  datatype LoadResult = Loaded(words: seq<seq<int>>) | Failed(error: LoadError)

  predicate IsAlpha(c: char) { 'a' <= c <= 'z' || 'A' <= c <= 'Z' }

  /** The code of a letter: lower case is taken as is, upper case is folded first. */
  function LetterCode(c: char): (code: int)
    requires IsAlpha(c)
    ensures IsLetter(code)
  {
    if 'A' <= c <= 'Z' then (c as int + 32) - 96 else c as int - 96
  }

  /** Length of the leading run of letters of `line`. */
  function LeadingAlpha(line: seq<char>): (n: nat)
    ensures n <= |line|
    ensures forall i :: 0 <= i < n ==> IsAlpha(line[i])
    ensures n == |line| || !IsAlpha(line[n])
  {
    if line == [] || !IsAlpha(line[0]) then 0 else 1 + LeadingAlpha(line[1..])
  }

  /** An encoded word: delimited by STAR at both ends, letters in between. */
  predicate Delimited(word: seq<int>)
  {
    |word| >= 2 && word[0] == STAR && word[|word| - 1] == STAR &&
    forall k :: 0 < k < |word| - 1 ==> IsLetter(word[k])
  }

  function Encoded(line: seq<char>): (word: seq<int>)
    ensures Delimited(word)
    ensures |word| == LeadingAlpha(line) + 2
    ensures forall k :: 0 < k < |word| - 1 ==> IsAlpha(line[k - 1]) && word[k] == LetterCode(line[k - 1])
  {
    var n := LeadingAlpha(line);
    [STAR] + seq(n, i requires 0 <= i < n => LetterCode(line[i])) + [STAR]
  }

  /** Encoding of one line, as the copy loop of load_words does it. */
  method EncodeLine(line: seq<char>) returns (word: seq<int>)
    ensures word == Encoded(line)
  {
    var i := 0;
    word := [STAR];
    i := i + 1;
    while i - 1 < |line| && IsAlpha(line[i - 1])
      invariant 1 <= i <= LeadingAlpha(line) + 1
      invariant |word| == i && word[0] == STAR
      invariant forall k :: 0 < k < i ==> word[k] == LetterCode(line[k - 1])
    {
      word := word + [LetterCode(line[i - 1])];
      i := i + 1;
    }
    word := word + [STAR];
  }

  /** A line contributes a word when it starts with a letter. */
  predicate Kept(line: seq<char>) { |Encoded(line)| > 2 }

  /** The encodings of the kept lines, in input order. */
  function KeptWords(lines: seq<seq<char>>): (ws: seq<seq<int>>)
    ensures |ws| <= |lines|
    ensures forall w :: 0 <= w < |ws| ==> Delimited(ws[w]) && |ws[w]| >= 3
  {
    if lines == [] then []
    else
      var last := lines[|lines| - 1];
      KeptWords(lines[..|lines| - 1]) + (if Kept(last) then [Encoded(last)] else [])
  }

  predicate TooLong(line: seq<char>) { |Encoded(line)| > WORDLENMAX - 2 }

  /**
   * The word list of load_words, minus the file reading: lines are taken
   * in order; a line whose encoding is longer than WORDLENMAX-2 is fatal; a
   * kept line arriving when WORDMAX-1 words are already loaded is fatal.
   */
  method LoadWords(lines: seq<seq<char>>) returns (r: LoadResult)
    ensures r.Loaded? <==> (forall j :: 0 <= j < |lines| ==> !TooLong(lines[j])) && |KeptWords(lines)| <= WORDMAX - 1
    ensures r.Loaded? ==> r.words == KeptWords(lines)
    ensures r.Loaded? ==> forall w :: 0 <= w < |r.words| ==> 3 <= |r.words[w]| <= WORDLENMAX - 2
    ensures r == Failed(WordTooLong) ==> exists j :: 0 <= j < |lines| && TooLong(lines[j])
    ensures r == Failed(TooManyWords) ==> |KeptWords(lines)| > WORDMAX - 1
  {
    var words: seq<seq<int>> := [];
    var j := 0;
    while j < |lines|
      invariant 0 <= j <= |lines|
      invariant words == KeptWords(lines[..j])
      invariant |words| <= WORDMAX - 1
      invariant forall j' :: 0 <= j' < j ==> !TooLong(lines[j'])
    {
      KeptWordsStep(lines, j);
      var err;
      err, words := AddLine(words, lines[j]);
      if err.Some? {
        if err.value == WordTooLong {
          return Failed(WordTooLong);
        }
        KeptWordsGrows(lines, j + 1);
        return Failed(TooManyWords);
      }
      j := j + 1;
    }
    assert lines[..j] == lines;
    KeptWordsBounded(lines);
    return Loaded(words);
  }

  /**
   * One line of load_words: encode it, fail when it is too long, and keep
   * it when it starts with a letter, failing when WORDMAX-1 words are
   * already kept.
   */
  method AddLine(words: seq<seq<int>>, line: seq<char>) returns (err: Option<LoadError>, words': seq<seq<int>>)
    requires |words| <= WORDMAX - 1
    ensures err == Some(WordTooLong) <==> TooLong(line)
    ensures err == Some(TooManyWords) <==> !TooLong(line) && Kept(line) && |words| == WORDMAX - 1
    ensures err.None? ==> words' == words + (if Kept(line) then [Encoded(line)] else []) && |words'| <= WORDMAX - 1
  {
    var word := EncodeLine(line);
    words' := words;
    if |word| > WORDLENMAX - 2 {
      return Some(WordTooLong), words';
    }
    if |word| > 2 {
      if |words| == WORDMAX - 1 {
        return Some(TooManyWords), words';
      }
      words' := words + [word];
    }
    err := None;
  }

  /** Reading line j keeps its encoding exactly when the line starts with a letter. */
  lemma KeptWordsStep(lines: seq<seq<char>>, j: int)
    requires 0 <= j < |lines|
    ensures KeptWords(lines[..j + 1]) == KeptWords(lines[..j]) + (if Kept(lines[j]) then [Encoded(lines[j])] else [])
  {
    assert lines[..j + 1][..j] == lines[..j];
  }

  /** The kept words only grow as more lines are read. */
  lemma {:induction false} KeptWordsGrows(lines: seq<seq<char>>, j: nat)
    requires j <= |lines|
    ensures |KeptWords(lines[..j])| <= |KeptWords(lines)|
  {
    if j < |lines| {
      assert lines[..|lines| - 1][..j] == lines[..j];
      KeptWordsGrows(lines[..|lines| - 1], j);
    } else {
      assert lines[..j] == lines;
    }
  }

  /** A word list without over-long lines has only words within the length limit. */
  lemma {:induction false} KeptWordsBounded(lines: seq<seq<char>>)
    requires forall j :: 0 <= j < |lines| ==> !TooLong(lines[j])
    ensures forall w :: 0 <= w < |KeptWords(lines)| ==> |KeptWords(lines)[w]| <= WORDLENMAX - 2
  {
    if lines != [] {
      KeptWordsBounded(lines[..|lines| - 1]);
    }
  }
}

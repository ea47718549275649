/** String helpers the application relies on: Python's `str.lower` (restricted to
    ASCII letters) and `sep.join(words)`, together with the facts about them the
    expansion engine needs. */
module Text {

  predicate IsAsciiUpper(c: char) {
    'A' <= c <= 'Z'
  }

  /** Case folding of one character: A-Z become a-z, every other character is kept. */
  function LowerChar(c: char): char {
    if IsAsciiUpper(c) then (c as int + 32) as char else c
  }

  /** `s.lower()`, approximated by ASCII folding that is the identity on every other
      character (so in particular on CJK text). */
  function Lower(s: string): (r: string)
    ensures |r| == |s|
    ensures forall i :: 0 <= i < |r| ==> !IsAsciiUpper(r[i])
    ensures forall i :: 0 <= i < |s| && !IsAsciiUpper(s[i]) ==> r[i] == s[i]
    ensures forall i :: 0 <= i < |s| && IsAsciiUpper(s[i]) ==> r[i] as int == s[i] as int + 32
  {
    seq(|s|, i requires 0 <= i < |s| => LowerChar(s[i]))
  }

  predicate HasNoUpper(s: string) {
    forall i :: 0 <= i < |s| ==> !IsAsciiUpper(s[i])
  }

  /** Lowering changes a string exactly when it holds an ASCII capital. */
  lemma LowerFixpoint(s: string)
    ensures Lower(s) == s <==> HasNoUpper(s)
  {
    if Lower(s) == s {
      forall i | 0 <= i < |s|
        ensures !IsAsciiUpper(s[i])
      {
        assert Lower(s)[i] == s[i];
      }
    }
  }

  lemma LowerIdempotent(s: string)
    ensures Lower(Lower(s)) == Lower(s)
  {
    LowerFixpoint(Lower(s));
  }

  /** The negation test of the English engine: `w.lower() == 'no'`. */
  predicate IsNo(w: string) {
    Lower(w) == "no"
  }

  /** Case-insensitive "no" means one of the four spellings. */
  lemma IsNoSpellings(w: string)
    ensures IsNo(w) <==> w in {"no", "No", "nO", "NO"}
  {
    if IsNo(w) {
      assert |w| == 2;
      assert Lower(w)[0] == 'n' && Lower(w)[1] == 'o';
      assert w[0] == 'n' || w[0] == 'N';
      assert w[1] == 'o' || w[1] == 'O';
      assert w == [w[0], w[1]];
    } else {
      assert Lower("no") == "no";
      assert Lower("No") == "no";
      assert Lower("nO") == "no";
      assert Lower("NO") == "no";
    }
  }

  /** The string's last character is one of `stops`. */
  predicate EndsIn(s: string, stops: set<char>) {
    |s| > 0 && s[|s| - 1] in stops
  }

  function SumLengths(words: seq<string>): nat {
    if |words| == 0 then 0 else |words[0]| + SumLengths(words[1..])
  }

  /** `sep.join(words)`. */
  function Join(words: seq<string>, sep: string): (r: string)
    ensures |words| == 0 ==> r == ""
    ensures |words| > 0 ==> |r| == SumLengths(words) + (|words| - 1) * |sep|
    ensures |words| > 0 ==> r[..|words[0]|] == words[0]
  {
    if |words| == 0 then ""
    else if |words| == 1 then words[0]
    else words[0] + sep + Join(words[1..], sep)
  }

  /** `s.split(sep)` for a one-character separator: the pieces between separators. */
  function Split(s: string, sep: char): (r: seq<string>)
    ensures |r| >= 1
    decreases |s|
  {
    if |s| == 0 then [""]
    else
      var rest := Split(s[1..], sep);
      if s[0] == sep then [""] + rest else [[s[0]] + rest[0]] + rest[1..]
  }

  lemma {:induction false} SplitWithoutSeparator(w: string, sep: char)
    requires sep !in w
    ensures Split(w, sep) == [w]
    decreases |w|
  {
    if |w| > 0 {
      assert w == [w[0]] + w[1..];
      SplitWithoutSeparator(w[1..], sep);
    }
  }

  lemma {:induction false} SplitAfterWord(w: string, t: string, sep: char)
    requires sep !in w
    ensures Split(w + [sep] + t, sep) == [w] + Split(t, sep)
    decreases |w|
  {
    if |w| == 0 {
      assert w + [sep] + t == [sep] + t;
      assert ([sep] + t)[1..] == t;
    } else {
      var s := w + [sep] + t;
      assert s[0] == w[0];
      assert s[1..] == w[1..] + [sep] + t;
      SplitAfterWord(w[1..], t, sep);
      assert [w[0]] + w[1..] == w;
    }
  }

  /** Joining with a one-character separator loses nothing when no word holds the
      separator: splitting the joined text gives back the words. */
  lemma {:induction false} SplitJoinRoundTrip(words: seq<string>, sep: char)
    requires |words| > 0
    requires forall i :: 0 <= i < |words| ==> sep !in words[i]
    ensures Split(Join(words, [sep]), sep) == words
    decreases |words|
  {
    if |words| == 1 {
      SplitWithoutSeparator(words[0], sep);
    } else {
      SplitJoinRoundTrip(words[1..], sep);
      SplitAfterWord(words[0], Join(words[1..], [sep]), sep);
      assert [words[0]] + words[1..] == words;
    }
  }
}

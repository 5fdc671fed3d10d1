/**
 * The text operations used to build the fresh-message context
 * (main.py:53-54): a trailing slice `[-n:]` of a list and
 * `"\n".join(...)`, together with `str.split("\n")`, the inverse that
 * shows how many lines the joined context has.
 */
module TextLines {

  const Newline: char := '\n'

  /** How many trailing messages the fresh-message context keeps. */
  const ContextSize: nat := 10

  /** No line contains a newline of its own. */
  predicate SingleLines(lines: seq<string>)
  {
    forall i :: 0 <= i < |lines| ==> Newline !in lines[i]
  }

  /** Python's `s[-n:]` for n > 0: the last n elements, or all of s when it is shorter. */
  function Last<T>(s: seq<T>, n: nat): (r: seq<T>)
    requires n > 0
    ensures |r| == if |s| <= n then |s| else n
    ensures r == s[|s| - |r|..]
  {
    if |s| <= n then s else s[|s| - n..]
  }

  /** Python's `"\n".join(lines)`. */
  function Join(lines: seq<string>): string
  {
    if |lines| == 0 then ""
    else if |lines| == 1 then lines[0]
    else lines[0] + [Newline] + Join(lines[1..])
  }

  /** Python's `s.split("\n")`: the pieces between newlines, at least one. */
  function Split(s: string): (r: seq<string>)
    ensures |r| >= 1
    ensures SingleLines(r)
  {
    if s == [] then [""]
    else
      var rest := Split(s[1..]);
      if s[0] == Newline then [""] + rest
      else [[s[0]] + rest[0]] + rest[1..]
  }

  /** The context string handed to the completion service (main.py:53-54). */
  function ContextString(texts: seq<string>): string
  {
    Join(Last(texts, ContextSize))
  }

  lemma {:induction false} SplitSingleLine(a: string)
    requires Newline !in a
    ensures Split(a) == [a]
  {
    if a != [] {
      SplitSingleLine(a[1..]);
      assert [a[0]] + a[1..] == a;
    }
  }

  lemma {:induction false} SplitAfterLine(a: string, rest: string)
    requires Newline !in a
    ensures Split(a + [Newline] + rest) == [a] + Split(rest)
  {
    var s := a + [Newline] + rest;
    if a == [] {
      assert s[0] == Newline && s[1..] == rest;
    } else {
      assert s[0] == a[0] && s[1..] == a[1..] + [Newline] + rest;
      SplitAfterLine(a[1..], rest);
      assert [a[0]] + a[1..] == a;
    }
  }

  /** Splitting a join of single-line texts gives the texts back. */
  lemma {:induction false} SplitJoin(lines: seq<string>)
    requires |lines| >= 1 && SingleLines(lines)
    ensures Split(Join(lines)) == lines
  {
    if |lines| == 1 {
      SplitSingleLine(lines[0]);
    } else {
      SplitJoin(lines[1..]);
      SplitAfterLine(lines[0], Join(lines[1..]));
      assert [lines[0]] + lines[1..] == lines;
    }
  }

  /**
   * The context consists of the texts of the last min(10, |texts|)
   * messages, oldest first, one per line; so it has at most 10 lines,
   * and when there are at most 10 texts it holds every one of them.
   * Only the texts inside that window need to be single lines.
   */
  lemma ContextLines(texts: seq<string>)
    requires |texts| >= 1 && SingleLines(Last(texts, ContextSize))
    ensures var lines := Split(ContextString(texts));
      && |lines| == (if |texts| <= ContextSize then |texts| else ContextSize)
      && lines == texts[|texts| - |lines|..]
      && (|texts| <= ContextSize ==> lines == texts)
  {
    SplitJoin(Last(texts, ContextSize));
  }
}

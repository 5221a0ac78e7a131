/** The two Python string operations the model-ID parser relies on, on
    `string` (a sequence of characters): finding the first occurrence of a
    character, and `s.split(sep, 1)` with a one-character separator. */
module PyStr {
  import opened Wrappers

  /** Position of the first occurrence of `c` in `s`, or None when `c` does
      not occur (Python's `s.find(c)`, which gives -1 there). */
  function FirstIndex(s: string, c: char): (r: Option<nat>)
    ensures r.None? <==> c !in s
    ensures r.Some? ==> r.value < |s| && s[r.value] == c && c !in s[..r.value]
  {
    if s == [] then None
    else if s[0] == c then Some(0)
    else
      match FirstIndex(s[1..], c)
      case None => None
      case Some(i) =>
        assert s[..i + 1] == [s[0]] + s[1..][..i];
        Some(i + 1)
  }

  /** Python's `s.split(sep, 1)`: the whole string as a single part when
      `sep` does not occur, otherwise the text before the FIRST `sep` and the
      text after it (which may contain further separators). */
  function SplitOnce(s: string, sep: char): (parts: seq<string>)
    ensures |parts| == 1 || |parts| == 2
    ensures |parts| == 1 <==> sep !in s
    ensures |parts| == 1 ==> parts[0] == s
    ensures |parts| == 2 ==> parts[0] + [sep] + parts[1] == s && sep !in parts[0]
  {
    match FirstIndex(s, sep)
    case None => [s]
    case Some(i) =>
      assert s[..i] + [sep] + s[i + 1..] == s;
      [s[..i], s[i + 1..]]
  }

  /** A string that is split only once is split at its first separator: the
      decomposition `head + [sep] + tail` with no `sep` in `head` is unique. */
  lemma SplitOnceOfJoined(head: string, sep: char, tail: string)
    requires sep !in head
    ensures SplitOnce(head + [sep] + tail, sep) == [head, tail]
  {
    var s := head + [sep] + tail;
    assert s[|head|] == sep;
    var parts := SplitOnce(s, sep);
    assert |parts| == 2;
    var k := |parts[0]|;
    assert parts[0] == s[..k] == head;
    assert parts[1] == s[k + 1..] == tail;
  }

  /** The separator found by SplitOnce is the first one in the string: a
      corollary of the contracts of SplitOnce and FirstIndex, stated for the
      reader. */
  lemma SplitOnceAtFirstIndex(s: string, sep: char)
    requires sep in s
    ensures FirstIndex(s, sep) == Some(|SplitOnce(s, sep)[0]|)
  {
  }
}

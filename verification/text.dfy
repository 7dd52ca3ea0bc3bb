/** The string operations the pipeline relies on: upper-casing, `startswith`, removal of a
    currency glyph, and the `"; "`-joined reference list together with its inverse. */
module Text {
  import opened Common

  /** Upper-case form of one character (ASCII letters only). */
  function UpperChar(c: char): char {
    if 'a' <= c <= 'z' then (c as int - 'a' as int + 'A' as int) as char else c
  }

  /** `str.upper()`, restricted to ASCII case mapping. */
  function Upper(s: string): (r: string)
    ensures |r| == |s|
    ensures forall i :: 0 <= i < |s| ==> r[i] == UpperChar(s[i])
    ensures forall i :: 0 <= i < |r| ==> !('a' <= r[i] <= 'z')
  {
    seq(|s|, i requires 0 <= i < |s| => UpperChar(s[i]))
  }

  /** `s.startswith(p)`. */
  predicate IsPrefix(p: string, s: string) {
    |p| <= |s| && s[..|p|] == p
  }

  /** `s.replace(c, '')`: every occurrence of `c` deleted, everything else kept in order. */
  function RemoveChar(s: string, c: char): (r: string)
    ensures c !in r
    ensures IsSubsequence(r, s)
    ensures forall d :: d != c ==> multiset(r)[d] == multiset(s)[d]
  {
    Filter(s, (d: char) => d != c)
  }

  /** The separator `combine_trades` puts between reference ids. */
  const RefSeparator: string := "; "

  /** `sep.join(parts)`. */
  function Join(parts: seq<string>, sep: string): (r: string)
    // joined with `"; "`, ids that contain no `;` lose nothing: splitting gives them back
    ensures sep == RefSeparator && |parts| > 0 && NoSemicolons(parts) ==> SplitRefs(r) == parts
    decreases |parts|
  {
    if |parts| == 0 then ""
    else if |parts| == 1 then
      assert NoSemicolons(parts) ==> SplitRefs(parts[0]) == parts;
      parts[0]
    else
      var tail := Join(parts[1..], sep);
      assert sep == RefSeparator && NoSemicolons(parts) ==> SplitRefs(parts[0] + sep + tail) == parts by {
        if sep == RefSeparator && NoSemicolons(parts) {
          assert NoSemicolons(parts[1..]) by {
            assert forall i :: 0 < i < |parts| ==> parts[1..][i - 1] == parts[i];
          }
          SplitRefsCons(parts[0], tail);
          assert parts == [parts[0]] + parts[1..];
        }
      }
      parts[0] + sep + tail
  }

  /** Reads back a `"; "`-joined list: cut at every `;` and drop the one blank that follows it. */
  function SplitRefs(s: string): (parts: seq<string>)
    ensures |parts| > 0
    decreases |s|
  {
    if ';' !in s then [s]
    else
      var i := IndexOf(s, ';');
      var rest := s[i + 1..];
      var next := if |rest| > 0 && rest[0] == ' ' then rest[1..] else rest;
      [s[..i]] + SplitRefs(next)
  }

  /** No reference id contains the separator's `;`. */
  predicate NoSemicolons(parts: seq<string>) {
    forall i :: 0 <= i < |parts| ==> ';' !in parts[i]
  }

  /** De-duplicated ids that contain no `;` survive the join: splitting gives back each once,
      in first-seen order. */
  lemma JoinUniqueReadBack(ids: seq<string>)
    requires |ids| > 0 && NoSemicolons(ids)
    ensures SplitRefs(Join(Unique(ids), RefSeparator)) == Unique(ids)
  {
    var u := Unique(ids);
    assert ids[0] in u;
    forall j | 0 <= j < |u|
      ensures ';' !in u[j]
    {
      assert u[j] in ids;
    }
  }

  /** Splitting a `"; "`-joined head off: the part before the first `;` comes back whole. */
  lemma {:induction false} SplitRefsCons(p: string, t: string)
    requires ';' !in p
    ensures SplitRefs(p + RefSeparator + t) == [p] + SplitRefs(t)
  {
    var s := p + RefSeparator + t;
    assert s[|p|] == ';';
    assert forall j :: 0 <= j < |p| ==> s[j] == p[j];
    FirstIndexUnique(s, ';', |p|);
    assert s[..|p|] == p;
    var rest := s[|p| + 1..];
    assert rest == " " + t;
    assert rest[1..] == t;
  }
}

/** The part of std::istream the samples rely on: std::getline over an input
    held in memory (an std::istringstream, or the whole content of the file
    an std::ifstream reads), with the eofbit and failbit it sets. */
module Streams {

  /** An input stream: the characters, the read position and the two state
      bits std::getline can set. */
  datatype InputStream = InputStream(data: string, pos: nat, eof: bool, fail: bool)
  {
    predicate Valid() { pos <= |data| }

    /** std::ios::good(): neither eofbit nor failbit is set. */
    predicate Good() { !eof && !fail }
  }

  /** A freshly opened stream over the given characters. */
  function Open(data: string): (s: InputStream)
    ensures s.Valid() && s.Good() && s.pos == 0
  {
    InputStream(data, 0, false, false)
  }

  /** Position of the first c in s, or |s| when there is none. */
  function FindChar(s: string, c: char): (k: nat)
    ensures k <= |s|
    ensures k < |s| ==> s[k] == c
    ensures forall i :: 0 <= i < k ==> s[i] != c
  {
    if s == [] || s[0] == c then 0 else FindChar(s[1..], c) + 1
  }

  /** std::getline(is, str, delim): on a stream that is not good the sentry
      sets failbit and nothing is read; otherwise characters are extracted up
      to and including the delimiter (which is not stored), or up to the end
      of the data, which sets eofbit; extracting nothing at all, not even a
      delimiter, sets failbit. The string is cleared first in every case. */
  function GetLine(s: InputStream, delim: char): (r: (InputStream, string))
    requires s.Valid()
    ensures r.0.Valid() && r.0.data == s.data && s.pos <= r.0.pos
    ensures forall i :: 0 <= i < |r.1| ==> r.1[i] != delim
    ensures !s.Good() ==> r == (s.(fail := true), "")
    ensures s.Good() && r.0.pos < |s.data| ==> !r.0.eof
    ensures !r.0.fail <==> s.Good() && s.pos < |s.data|
    ensures !r.0.fail && !r.0.eof ==> s.data[s.pos..r.0.pos] == r.1 + [delim]
    ensures !r.0.fail && r.0.eof ==> s.data[s.pos..] == r.1 && r.0.pos == |s.data|
  {
    if !s.Good() then (s.(fail := true), "")
    else
      var rest := s.data[s.pos..];
      var k := FindChar(rest, delim);
      if k < |rest| then
        assert rest[..k + 1] == rest[..k] + [delim];
        (s.(pos := s.pos + k + 1), rest[..k])
      else if rest == [] then (s.(eof := true, fail := true), "")
      else (s.(pos := |s.data|, eof := true), rest)
  }

  predicate NoDelimiter(f: string, delim: char) { forall i :: 0 <= i < |f| ==> f[i] != delim }

  /** Reading a field that ends in the delimiter yields the field and leaves
      the stream good, just past the delimiter. */
  lemma GetLineField(s: InputStream, delim: char, f: string, rest: string)
    requires s.Valid() && s.Good() && NoDelimiter(f, delim)
    requires s.data[s.pos..] == f + [delim] + rest
    ensures GetLine(s, delim) == (s.(pos := s.pos + |f| + 1), f)
  {
    var tail := s.data[s.pos..];
    assert tail[|f|] == delim;
    var k := FindChar(tail, delim);
    assert k == |f|;
    assert tail[..k] == f;
  }

  /** Reading a non-empty last field with no delimiter after it yields the
      field and sets eofbit but not failbit. */
  lemma GetLineLastField(s: InputStream, delim: char, f: string)
    requires s.Valid() && s.Good() && NoDelimiter(f, delim) && f != []
    requires s.data[s.pos..] == f
    ensures GetLine(s, delim) == (s.(pos := |s.data|, eof := true), f)
  {
    var k := FindChar(s.data[s.pos..], delim);
    assert k == |f|;
  }

  /** Reading at the very end of a good stream yields "" and sets both
      eofbit and failbit. */
  lemma GetLineAtEnd(s: InputStream, delim: char)
    requires s.Valid() && s.Good() && s.pos == |s.data|
    ensures GetLine(s, delim) == (s.(eof := true, fail := true), "")
  {
  }
}

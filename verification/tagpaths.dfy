/** Hierarchical tag paths: how a client string becomes path segments. */
module TagPaths {

  /** Unicode white space, as trimming understands it. */
  predicate IsSpace(c: char) {
    var n := c as int;
    0x09 <= n <= 0x0D || n == 0x20 || n == 0x85 || n == 0xA0 || n == 0x1680 || 0x2000 <= n <= 0x200A ||
    n == 0x2028 || n == 0x2029 || n == 0x202F || n == 0x205F || n == 0x3000
  }

  function TrimStart(s: string): (r: string)
    ensures r == [] || !IsSpace(r[0])
    ensures |r| <= |s| && r == s[|s| - |r|..]
  {
    if s != [] && IsSpace(s[0]) then TrimStart(s[1..]) else s
  }

  function TrimEnd(s: string): (r: string)
    ensures r == [] || !IsSpace(r[|r| - 1])
    ensures |r| <= |s| && r == s[..|r|]
  {
    if s != [] && IsSpace(s[|s| - 1]) then TrimEnd(s[..|s| - 1]) else s
  }

  function Trim(s: string): string {
    TrimEnd(TrimStart(s))
  }

  /** Nothing but white space. */
  predicate IsBlank(s: string) {
    forall c <- s :: IsSpace(c)
  }

  lemma {:induction false} TrimStartOfBlank(s: string)
    ensures TrimStart(s) == [] <==> IsBlank(s)
  {
    if s != [] && IsSpace(s[0]) {
      assert s == [s[0]] + s[1..];
      TrimStartOfBlank(s[1..]);
    }
  }

  lemma {:induction false} TrimEndOfBlank(s: string)
    ensures TrimEnd(s) == [] <==> IsBlank(s)
  {
    if s != [] && IsSpace(s[|s| - 1]) {
      assert s == s[..|s| - 1] + [s[|s| - 1]];
      TrimEndOfBlank(s[..|s| - 1]);
    }
  }

  /** A string is blank exactly if trimming leaves nothing. */
  lemma BlankIsTrimmedAway(s: string)
    ensures IsBlank(s) <==> Trim(s) == []
  {
    TrimStartOfBlank(s);
    TrimEndOfBlank(TrimStart(s));
    assert TrimStart(s) != [] ==> TrimStart(s)[0] in TrimStart(s);
  }

  /** A path segment: not empty, no white space at its ends, no separator. */
  predicate IsSegment(s: string) {
    s != [] && !IsSpace(s[0]) && !IsSpace(s[|s| - 1]) && '/' !in s
  }

  function Split(s: string, separator: char): (parts: seq<string>)
    ensures parts != []
  {
    if s == [] then [[]]
    else
      var rest := Split(s[1..], separator);
      if s[0] == separator then [[]] + rest else [[s[0]] + rest[0]] + rest[1..]
  }

  function Kept(parts: seq<string>): seq<string> {
    if parts == [] then []
    else (if Trim(parts[0]) == [] then [] else [Trim(parts[0])]) + Kept(parts[1..])
  }

  /** The non-empty segments of a client string, root first. */
  function Parse(name: string): seq<string> {
    Kept(Split(name, '/'))
  }

  /** The client string names a tag at all. */
  predicate NamesTag(name: string) {
    |Parse(name)| > 0
  }

  function Join(segments: seq<string>): string {
    if segments == [] then []
    else if |segments| == 1 then segments[0]
    else Join(segments[..|segments| - 1]) + "/" + segments[|segments| - 1]
  }

  ghost predicate AreSegments(segments: seq<string>) {
    forall s <- segments :: IsSegment(s)
  }

  lemma TrimOfSegment(s: string)
    requires s == [] || (!IsSpace(s[0]) && !IsSpace(s[|s| - 1]))
    ensures Trim(s) == s
  {
  }

  lemma TrimmedIsSegment(s: string)
    requires '/' !in s && Trim(s) != []
    ensures IsSegment(Trim(s))
  {
    var start := TrimStart(s);
    var t := TrimEnd(start);
    assert t[0] == start[0];
    assert forall i | 0 <= i < |t| :: t[i] == start[i] == s[|s| - |start| + i];
  }

  lemma {:induction false} PartsHaveNoSeparator(s: string, separator: char)
    ensures forall part <- Split(s, separator) :: separator !in part
  {
    if s != [] {
      PartsHaveNoSeparator(s[1..], separator);
      var rest := Split(s[1..], separator);
      assert rest[0] in rest;
      assert forall part <- rest[1..] :: part in rest;
    }
  }

  lemma {:induction false} KeptAreSegments(parts: seq<string>)
    requires forall part <- parts :: '/' !in part
    ensures AreSegments(Kept(parts))
  {
    if parts != [] {
      assert parts[0] in parts;
      assert forall part <- parts[1..] :: part in parts;
      KeptAreSegments(parts[1..]);
      if Trim(parts[0]) != [] {
        TrimmedIsSegment(parts[0]);
      }
    }
  }

  /** Whatever the client sends, only proper segments come out. */
  lemma ParseGivesSegments(name: string)
    ensures AreSegments(Parse(name))
  {
    PartsHaveNoSeparator(name, '/');
    KeptAreSegments(Split(name, '/'));
  }

  lemma {:induction false} SplitOfPart(s: string, separator: char)
    requires separator !in s
    ensures Split(s, separator) == [s]
  {
    if s != [] {
      assert s == [s[0]] + s[1..];
      SplitOfPart(s[1..], separator);
    }
  }

  lemma SplitOfCons(c: char, s: string, separator: char)
    ensures var rest := Split(s, separator);
            Split([c] + s, separator) == if c == separator then [[]] + rest else [[c] + rest[0]] + rest[1..]
  {
    assert ([c] + s)[1..] == s;
  }

  lemma {:induction false} SplitOfJoined(a: string, b: string, separator: char)
    ensures Split(a + ([separator] + b), separator) == Split(a, separator) + Split(b, separator)
  {
    if a == [] {
      assert a + ([separator] + b) == [separator] + b;
      SplitOfCons(separator, b, separator);
    } else {
      var c, tail := a[0], a[1..];
      assert a == [c] + tail;
      assert a + ([separator] + b) == [c] + (tail + ([separator] + b));
      SplitOfJoined(tail, b, separator);
      SplitOfCons(c, tail, separator);
      SplitOfCons(c, tail + ([separator] + b), separator);
      ConsKeepsTail(Split(tail, separator), Split(b, separator), c);
    }
  }

  lemma ConsKeepsTail(x: seq<string>, y: seq<string>, c: char)
    requires x != []
    ensures [[c] + (x + y)[0]] + (x + y)[1..] == ([[c] + x[0]] + x[1..]) + y
    ensures [[]] + (x + y) == ([[]] + x) + y
  {
  }

  function KeptOne(part: string): seq<string> {
    if Trim(part) == [] then [] else [Trim(part)]
  }

  lemma KeptOfCons(part: string, rest: seq<string>)
    ensures Kept([part] + rest) == KeptOne(part) + Kept(rest)
  {
    assert ([part] + rest)[1..] == rest;
  }

  lemma Associative(x: seq<string>, y: seq<string>, z: seq<string>)
    ensures x + (y + z) == x + y + z
  {
  }

  lemma {:induction false} KeptOfJoined(a: seq<string>, b: seq<string>)
    ensures Kept(a + b) == Kept(a) + Kept(b)
  {
    if a == [] {
      assert a + b == b;
    } else {
      var part, rest := a[0], a[1..];
      calc {
        Kept(a + b);
      == { assert a + b == [part] + (rest + b); }
        Kept([part] + (rest + b));
      == { KeptOfCons(part, rest + b); }
        KeptOne(part) + Kept(rest + b);
      == { KeptOfJoined(rest, b); }
        KeptOne(part) + (Kept(rest) + Kept(b));
      == { Associative(KeptOne(part), Kept(rest), Kept(b)); }
        KeptOne(part) + Kept(rest) + Kept(b);
      == { KeptOfCons(part, rest); assert a == [part] + rest; }
        Kept(a) + Kept(b);
      }
    }
  }

  /** A separator parts a client string in two that are read one after the other; with
      `ParseOfPadded` and `ParseOfBlank` this determines what every client string comes to. */
  lemma ParseOfParted(a: string, b: string)
    ensures Parse(a + "/" + b) == Parse(a) + Parse(b)
  {
    assert a + "/" + b == a + (['/'] + b);
    SplitOfJoined(a, b, '/');
    KeptOfJoined(Split(a, '/'), Split(b, '/'));
  }

  /** Parsing undoes joining. */
  lemma {:induction false} ParseOfJoin(segments: seq<string>)
    requires AreSegments(segments)
    ensures Parse(Join(segments)) == segments
  {
    if segments == [] {
      assert Split([], '/') == [[]];
    } else {
      var init, last := segments[..|segments| - 1], segments[|segments| - 1];
      assert segments == init + [last] && last in segments;
      if init == [] {
        ParseOfSegment(last);
      } else {
        ParseOfJoin(init);
        ParseOfAppended(Join(init), last);
      }
    }
  }

  lemma ParseOfSegment(segment: string)
    requires IsSegment(segment)
    ensures Parse(segment) == [segment]
  {
    TrimOfSegment(segment);
    SplitOfPart(segment, '/');
    assert Kept([segment]) == [segment];
  }

  lemma ParseOfAppended(path: string, segment: string)
    requires IsSegment(segment)
    ensures Parse(path + "/" + segment) == Parse(path) + [segment]
  {
    ParseOfSegment(segment);
    ParseOfParted(path, segment);
  }

  // What any client string comes to

  lemma {:induction false} TrimStartOfPadded(pad: string, s: string)
    requires IsBlank(pad)
    ensures TrimStart(pad + s) == TrimStart(s)
  {
    if pad == [] {
      assert pad + s == s;
    } else {
      assert pad[0] in pad && (pad + s)[1..] == pad[1..] + s;
      TrimStartOfPadded(pad[1..], s);
    }
  }

  lemma {:induction false} TrimEndOfPadded(s: string, pad: string)
    requires IsBlank(pad)
    ensures TrimEnd(s + pad) == TrimEnd(s)
  {
    if pad == [] {
      assert s + pad == s;
    } else {
      assert pad[|pad| - 1] in pad && (s + pad)[..|s + pad| - 1] == s + pad[..|pad| - 1];
      TrimEndOfPadded(s, pad[..|pad| - 1]);
    }
  }

  lemma TrimStartStops(s: string)
    requires s != [] && !IsSpace(s[0])
    ensures TrimStart(s) == s
  {
  }

  /** White space around a segment goes, the segment stays. */
  lemma TrimOfPadded(pad: string, segment: string, pad': string)
    requires IsBlank(pad) && IsBlank(pad') && IsSegment(segment)
    ensures Trim(pad + segment + pad') == segment
  {
    var rest := segment + pad';
    assert pad + segment + pad' == pad + rest;
    TrimStartOfPadded(pad, rest);
    assert rest[0] == segment[0];
    TrimStartStops(rest);
    TrimEndOfPadded(segment, pad');
    TrimOfSegment(segment);
    assert TrimEnd(segment) == segment;
  }

  lemma KeptOfOne(part: string)
    ensures Kept([part]) == if Trim(part) == [] then [] else [Trim(part)]
  {
    assert Kept([part][1..]) == [];
  }

  /** One part of a path, alone: a padded segment is the segment. */
  lemma ParseOfPadded(pad: string, segment: string, pad': string)
    requires IsBlank(pad) && IsBlank(pad') && IsSegment(segment)
    ensures Parse(pad + segment + pad') == [segment]
  {
    var part := pad + segment + pad';
    assert '/' !in part;
    SplitOfPart(part, '/');
    TrimOfPadded(pad, segment, pad');
    KeptOfOne(part);
  }

  /** A blank part is none. */
  lemma ParseOfBlank(blank: string)
    requires IsBlank(blank)
    ensures Parse(blank) == []
  {
    assert '/' !in blank;
    SplitOfPart(blank, '/');
    BlankIsTrimmedAway(blank);
    KeptOfOne(blank);
  }

  /** White space and empty parts do not matter: the tag `work / go` is `work/go`. */
  lemma ParseOfUnclean(path: string, pad: string, segment: string, pad': string, blank: string)
    requires IsBlank(pad) && IsBlank(pad') && IsBlank(blank) && IsSegment(segment)
    ensures Parse(path + "/" + (pad + segment + pad')) == Parse(path) + [segment]
    ensures Parse((pad + segment + pad') + "/" + path) == [segment] + Parse(path)
    ensures Parse(path + "/" + blank) == Parse(path) == Parse(blank + "/" + path)
  {
    assert '/' !in pad + pad';
    ParseOfPadded(pad, segment, pad');
    ParseOfBlank(blank);
    ParseOfParted(path, pad + segment + pad');
    ParseOfParted(pad + segment + pad', path);
    ParseOfParted(path, blank);
    ParseOfParted(blank, path);
  }

  /** Cleaning a client string up is done after one pass. */
  lemma ParseIsIdempotent(name: string)
    ensures Parse(Join(Parse(name))) == Parse(name)
  {
    ParseGivesSegments(name);
    ParseOfJoin(Parse(name));
  }

  /** A path names one list of segments. */
  lemma JoinIsInjective(a: seq<string>, b: seq<string>)
    requires AreSegments(a) && AreSegments(b) && Join(a) == Join(b)
    ensures a == b
  {
    ParseOfJoin(a);
    ParseOfJoin(b);
  }
}

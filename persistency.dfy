/**
 * `ClassMapFile` and `SourceHashesFile`: a string map stored as one `key;value` line per
 * entry, read back with Kotlin's `split(';')` and `associate`. A file is its list of lines,
 * or `None` when it does not exist.
 */
module Persistency {
  import opened Wrappers
  import opened Abi
  import opened ClassMapping

  const Separator: char := ';'

  /** Kotlin's `split(c)`: the pieces between the occurrences of `c`, empty pieces kept. */
  function Split(s: string, c: char): (parts: seq<string>)
    ensures |parts| >= 1
  {
    if s == [] then [[]]
    else if s[0] == c then [[]] + Split(s[1..], c)
    else
      var rest := Split(s[1..], c);
      [[s[0]] + rest[0]] + rest[1..]
  }

  /** Joining the pieces back with `c`, the inverse of `Split`. */
  function Join(parts: seq<string>, c: char): string
    requires |parts| >= 1
  {
    if |parts| == 1 then parts[0] else parts[0] + [c] + Join(parts[1..], c)
  }

  /** There is one piece more than there are separators. */
  lemma {:induction false} SplitCount(s: string, c: char)
    ensures |Split(s, c)| == multiset(s)[c] + 1
  {
    if s != [] {
      SplitCount(s[1..], c);
      assert s == [s[0]] + s[1..];
      assert multiset(s) == multiset([s[0]]) + multiset(s[1..]);
    }
  }

  /** No piece holds a separator. */
  lemma {:induction false} SplitPiecesAreSeparatorFree(s: string, c: char)
    ensures forall i :: 0 <= i < |Split(s, c)| ==> c !in Split(s, c)[i]
  {
    if s != [] {
      SplitPiecesAreSeparatorFree(s[1..], c);
      var rest := Split(s[1..], c);
      var parts := Split(s, c);
      if s[0] != c {
        forall i | 0 <= i < |parts| ensures c !in parts[i] {
          if i > 0 { assert parts[i] == rest[i]; }
        }
      } else {
        assert parts[1..] == rest;
        forall i | 0 <= i < |parts| ensures c !in parts[i] {
          if i > 0 { assert parts[i] == rest[i - 1]; }
        }
      }
    }
  }

  /** Putting a character in front of the first piece puts it in front of the joined line. */
  lemma JoinConsFirst(x: char, parts: seq<string>, c: char)
    requires |parts| >= 1
    ensures Join([[x] + parts[0]] + parts[1..], c) == [x] + Join(parts, c)
  {
    var joined := [[x] + parts[0]] + parts[1..];
    if |parts| > 1 {
      assert joined[1..] == parts[1..];
      assert Join(joined, c) == ([x] + parts[0]) + [c] + Join(parts[1..], c);
      assert ([x] + parts[0]) + [c] + Join(parts[1..], c) == [x] + (parts[0] + [c] + Join(parts[1..], c));
    }
  }

  /** Joining the pieces with the separator restores the line. */
  lemma {:induction false} SplitJoin(s: string, c: char)
    ensures Join(Split(s, c), c) == s
  {
    if s != [] {
      SplitJoin(s[1..], c);
      var rest := Split(s[1..], c);
      if s[0] != c {
        JoinConsFirst(s[0], rest, c);
      } else {
        var parts := [[]] + rest;
        assert parts[1..] == rest;
        assert Join(parts, c) == [] + [c] + Join(rest, c);
      }
      assert s == [s[0]] + s[1..];
    }
  }

  /** A line without separator is a single piece. */
  lemma {:induction false} SplitWithoutSeparator(s: string, c: char)
    requires c !in s
    ensures Split(s, c) == [s]
  {
    if s != [] {
      assert c !in s[1..];
      SplitWithoutSeparator(s[1..], c);
      assert s == [s[0]] + s[1..];
    }
  }

  /** A separator-free prefix ends the first piece. */
  lemma {:induction false} SplitAfterPrefix(k: string, c: char, v: string)
    requires c !in k
    ensures Split(k + [c] + v, c) == [k] + Split(v, c)
  {
    if k == [] {
      assert k + [c] + v == [c] + v;
      assert ([c] + v)[1..] == v;
    } else {
      assert (k + [c] + v)[1..] == k[1..] + [c] + v;
      SplitAfterPrefix(k[1..], c, v);
      assert [k[0]] + k[1..] == k;
    }
  }

  /** The line `write` emits for one entry. */
  function Encode(key: string, value: string): string {
    key + [Separator] + value
  }

  /**
   * The destructuring `val (k, v) = line.split(';')`: the first two pieces, extra pieces
   * ignored; a line without separator has no second piece and fails.
   */
  function DecodeLine(line: string): (r: Result<(string, string)>)
    ensures r.Success? <==> Separator in line
  {
    var parts := Split(line, Separator);
    SplitCount(line, Separator);
    if |parts| < 2 then Failure("line has no ';'") else Success((parts[0], parts[1]))
  }

  /** No key nor value contains the separator. */
  predicate SeparatorFree(m: map<string, string>) {
    forall k :: k in m ==> Separator !in k && Separator !in m[k]
  }

  lemma DecodeEncode(key: string, value: string)
    requires Separator !in key && Separator !in value
    ensures DecodeLine(Encode(key, value)) == Success((key, value))
  {
    SplitAfterPrefix(key, Separator, value);
    SplitWithoutSeparator(value, Separator);
  }

  /** Extra pieces are ignored: the value ends at the second separator. */
  lemma DecodeIgnoresExtraPieces(key: string, value: string, rest: string)
    requires Separator !in key && Separator !in value
    ensures DecodeLine(Encode(key, value + [Separator] + rest)) == Success((key, value))
  {
    SplitAfterPrefix(key, Separator, value + [Separator] + rest);
    SplitAfterPrefix(value, Separator, rest);
    assert Encode(key, value + [Separator] + rest) == key + [Separator] + (value + [Separator] + rest);
  }

  /** `readAllLines(...).associate { ... }`: the lines decoded in order, a later key overriding an earlier one. */
  function DecodeLines(lines: seq<string>): (r: Result<map<string, string>>)
    decreases |lines|
  {
    if lines == [] then Success(map[])
    else
      var m := DecodeLines(lines[..|lines| - 1]);
      var entry := DecodeLine(lines[|lines| - 1]);
      if m.Failure? then m
      else if entry.Failure? then Failure(entry.error)
      else Success(m.value[entry.value.0 := entry.value.1])
  }

  /** Reading fails exactly when some line has no separator. */
  lemma {:induction false} DecodeLinesFailsIff(lines: seq<string>)
    ensures DecodeLines(lines).Failure? <==> exists i :: 0 <= i < |lines| && Separator !in lines[i]
    decreases |lines|
  {
    if lines != [] {
      var init := lines[..|lines| - 1];
      DecodeLinesFailsIff(init);
      if exists i :: 0 <= i < |init| && Separator !in init[i] {
        var i :| 0 <= i < |init| && Separator !in init[i];
        assert lines[i] == init[i];
      }
      if exists i :: 0 <= i < |lines| && Separator !in lines[i] {
        var i :| 0 <= i < |lines| && Separator !in lines[i];
        if i < |init| { assert init[i] == lines[i]; }
      }
    }
  }

  /** For a repeated key the last line wins. */
  lemma LastLineWins(lines: seq<string>, key: string, v1: string, v2: string)
    requires Separator !in key && Separator !in v1 && Separator !in v2
    requires DecodeLines(lines).Success?
    ensures DecodeLines(lines + [Encode(key, v1), Encode(key, v2)]) == Success(DecodeLines(lines).value[key := v2])
  {
    DecodeEncode(key, v1);
    DecodeEncode(key, v2);
    var once := lines + [Encode(key, v1)];
    assert once[..|lines|] == lines;
    var d := DecodeLines(lines).value;
    assert DecodeLines(once) == Success(d[key := v1]);
    assert (once + [Encode(key, v2)])[..|once|] == once;
    assert d[key := v1][key := v2] == d[key := v2];
    assert once + [Encode(key, v2)] == lines + [Encode(key, v1), Encode(key, v2)];
  }

  /** `line` is the line of some entry of `m`. */
  ghost predicate LineOf(line: string, m: map<string, string>) {
    exists k :: k in m && line == Encode(k, m[k])
  }

  /** `write`'s output for `m`: exactly one `key;value` line per entry, in some order. */
  ghost predicate EncodesMap(lines: seq<string>, m: map<string, string>) {
    && |lines| == |m|
    && (forall k :: k in m ==> Encode(k, m[k]) in lines)
    && (forall i :: 0 <= i < |lines| ==> LineOf(lines[i], m))
  }

  /** The loop of `write`: one line per entry. */
  method EncodeLines(m: map<string, string>) returns (lines: seq<string>)
    ensures EncodesMap(lines, m)
  {
    lines := [];
    ghost var keys: seq<string> := [];
    var todo := m.Keys;
    while todo != {}
      invariant todo <= m.Keys
      invariant |lines| == |keys| && |lines| + |todo| == |m|
      invariant forall i :: 0 <= i < |keys| ==> keys[i] in m && lines[i] == Encode(keys[i], m[keys[i]])
      invariant forall k :: k in m && k !in todo ==> Encode(k, m[k]) in lines
      decreases todo
    {
      var key :| key in todo;
      lines := lines + [Encode(key, m[key])];
      keys := keys + [key];
      todo := todo - {key};
    }
    forall i | 0 <= i < |lines| ensures LineOf(lines[i], m) {
      assert keys[i] in m && lines[i] == Encode(keys[i], m[keys[i]]);
    }
  }

  /** Decoding lines that each encode an entry of `m` yields a part of `m` holding every entry written. */
  lemma {:induction false} DecodeEncodedLines(lines: seq<string>, m: map<string, string>)
    requires SeparatorFree(m)
    requires forall i :: 0 <= i < |lines| ==> LineOf(lines[i], m)
    ensures DecodeLines(lines).Success?
    ensures forall k :: k in DecodeLines(lines).value ==> k in m && DecodeLines(lines).value[k] == m[k]
    ensures forall k :: k in m && Encode(k, m[k]) in lines ==> k in DecodeLines(lines).value
    decreases |lines|
  {
    if lines != [] {
      var init := lines[..|lines| - 1];
      var last := lines[|lines| - 1];
      assert forall i :: 0 <= i < |init| ==> init[i] == lines[i];
      DecodeEncodedLines(init, m);
      assert LineOf(last, m);
      var k0 :| k0 in m && last == Encode(k0, m[k0]);
      DecodeEncode(k0, m[k0]);
      assert DecodeLines(lines) == Success(DecodeLines(init).value[k0 := m[k0]]);
      forall k | k in m && Encode(k, m[k]) in lines ensures k in DecodeLines(lines).value {
        if Encode(k, m[k]) !in init {
          assert Encode(k, m[k]) == last;
          DecodeEncode(k, m[k]);
        }
      }
    }
  }

  /** `read` after `write` restores the map, when no key nor value contains ';'. */
  lemma ReadAfterWrite(lines: seq<string>, m: map<string, string>)
    requires EncodesMap(lines, m) && SeparatorFree(m)
    ensures DecodeLines(lines) == Success(m)
  {
    DecodeEncodedLines(lines, m);
    assert DecodeLines(lines).value == m;
  }

  /** `read`: `null` when the file is absent, otherwise the decoded lines. */
  function ReadMap(file: Option<seq<string>>): (r: Result<Option<map<string, string>>>)
    ensures file.None? ==> r == Success(None)
    ensures file.Some? ==> (r.Success? <==> DecodeLines(file.value).Success?)
    ensures file.Some? && r.Success? ==> r.value == Some(DecodeLines(file.value).value)
  {
    match file
    case None => Success(None)
    case Some(lines) =>
      var m := DecodeLines(lines);
      if m.Failure? then Failure(m.error) else Success(Some(m.value))
  }

  /** `SourceHashesFile`: relative source paths and their fingerprints. */
  class SourceHashesFile {
    var file: Option<seq<string>>

    constructor (file: Option<seq<string>>)
      ensures this.file == file
    {
      this.file := file;
    }

    function Read(): Result<Option<map<string, string>>>
      reads this
    {
      ReadMap(file)
    }

    /** `write`: creates or truncates the file and writes one line per entry. */
    method Write(value: map<string, string>)
      modifies this
      ensures file.Some? && EncodesMap(file.value, value)
    {
      var lines := EncodeLines(value);
      file := Some(lines);
    }
  }

  /** `ClassMapFile`: the class-to-source direction of a class map. */
  class ClassMapFile {
    var file: Option<seq<string>>

    constructor (file: Option<seq<string>>)
      ensures this.file == file
    {
      this.file := file;
    }

    /** `read`: `null` when there is no file, otherwise a class map built from its lines. */
    method Read() returns (r: Result<Option<ClassMap>>)
      ensures r.Success? <==> ReadMap(file).Success?
      ensures r.Failure? ==> r.error == ReadMap(file).error
      ensures r.Success? ==> (r.value.Some? <==> file.Some?)
      ensures r.Success? && r.value.Some? ==>
        fresh(r.value.value) &&
        r.value.value.classToSource == ReadMap(file).value.value &&
        r.value.value.sourceToClass == GroupBySource(ReadMap(file).value.value)
    {
      var m := ReadMap(file);
      if m.Failure? {
        return Failure(m.error);
      }
      if m.value.None? {
        return Success(None);
      }
      var classMap := new ClassMap(m.value.value);
      return Success(Some(classMap));
    }

    /** `write`: one line per entry of `serialiseToMap`, replacing the file. */
    method Write(classMap: ClassMap)
      modifies this
      ensures file.Some? && EncodesMap(file.value, classMap.SerialiseToMap())
    {
      var lines := EncodeLines(classMap.SerialiseToMap());
      file := Some(lines);
    }
  }
}

/** The configuration the core reads: the CORS origin list and the worker
    defaults. */
module Settings {
  import opened Seqs

  /** `worker_max_attempts`. */
  const WorkerMaxAttempts: nat := 8

  /** `worker_poll_interval_seconds` (1.5 s), in microseconds. */
  const PollIntervalMicros: nat := 1_500_000

  /** `api_allowed_origins`. */
  const AllowedOriginsDefault: string := "http://localhost:3000"

  /** The characters Python's `str.strip()` removes: those for which
      `str.isspace()` holds. */
  predicate IsSpace(c: char) {
    || c == ' ' || c == '\t' || c == '\n' || c == '\r' || c == '\U{000B}' || c == '\U{000C}'
    || ('\U{001C}' <= c <= '\U{001F}') || c == '\U{0085}' || c == '\U{00A0}' || c == '\U{1680}'
    || ('\U{2000}' <= c <= '\U{200A}') || c == '\U{2028}' || c == '\U{2029}' || c == '\U{202F}'
    || c == '\U{205F}' || c == '\U{3000}'
  }

  /** `s.split(sep)`: the pieces between separators, empty pieces included. */
  function Split(s: string, sep: char): (parts: seq<string>)
    ensures |parts| >= 1
    ensures forall i :: 0 <= i < |parts| ==> sep !in parts[i]
  {
    if s == [] then [""]
    else
      var rest := Split(s[1..], sep);
      if s[0] == sep then [""] + rest else [[s[0]] + rest[0]] + rest[1..]
  }

  /** `sep.join(parts)`. */
  function Join(parts: seq<string>, sep: char): string
    requires |parts| >= 1
  {
    if |parts| == 1 then parts[0] else parts[0] + [sep] + Join(parts[1..], sep)
  }

  /** Splitting loses nothing: joining the pieces gives the string back. */
  lemma {:induction false} JoinSplit(s: string, sep: char)
    ensures Join(Split(s, sep), sep) == s
  {
    if s != [] {
      JoinSplit(s[1..], sep);
      var rest := Split(s[1..], sep);
      var parts := Split(s, sep);
      if s[0] == sep {
        assert parts == [""] + rest && parts[1..] == rest;
        assert s == [] + [sep] + s[1..];
      } else if |rest| == 1 {
        assert parts == [[s[0]] + rest[0]];
        assert s == [s[0]] + s[1..];
      } else {
        assert parts == [[s[0]] + rest[0]] + rest[1..] && parts[1..] == rest[1..];
        assert Join(rest, sep) == rest[0] + [sep] + Join(rest[1..], sep);
        assert s == [s[0]] + s[1..];
      }
    }
  }

  /** And pieces without separators come back from a join unchanged. */
  lemma {:induction false} SplitJoin(parts: seq<string>, sep: char)
    requires |parts| >= 1 && forall i :: 0 <= i < |parts| ==> sep !in parts[i]
    ensures Split(Join(parts, sep), sep) == parts
  {
    if |parts| == 1 {
      SplitNoSeparator(parts[0], sep);
    } else {
      SplitJoin(parts[1..], sep);
      assert Join(parts, sep) == parts[0] + [sep] + Join(parts[1..], sep);
      SplitPrefix(parts[0], Join(parts[1..], sep), sep);
      assert parts == [parts[0]] + parts[1..];
    }
  }

  lemma {:induction false} SplitNoSeparator(s: string, sep: char)
    requires sep !in s
    ensures Split(s, sep) == [s]
  {
    if s != [] {
      assert sep !in s[1..] && s[0] != sep by {
        assert s == [s[0]] + s[1..];
      }
      SplitNoSeparator(s[1..], sep);
      assert s == [s[0]] + s[1..];
    }
  }

  /** A separator-free prefix followed by a separator is the first piece. */
  lemma {:induction false} SplitPrefix(p: string, rest: string, sep: char)
    requires sep !in p
    ensures Split(p + [sep] + rest, sep) == [p] + Split(rest, sep)
  {
    if p == [] {
      assert p + [sep] + rest == [sep] + rest;
    } else {
      assert sep !in p[1..] && p[0] != sep by {
        assert p == [p[0]] + p[1..];
      }
      SplitPrefix(p[1..], rest, sep);
      var whole := p + [sep] + rest;
      assert whole[0] == p[0] && whole[1..] == p[1..] + [sep] + rest;
      assert p == [p[0]] + p[1..];
    }
  }

  /** Where `strip()` starts: the number of leading whitespace characters. */
  function StripFrom(s: string): (n: nat)
    ensures n <= |s|
    ensures forall k :: 0 <= k < n ==> IsSpace(s[k])
    ensures n < |s| ==> !IsSpace(s[n])
  {
    if s != [] && IsSpace(s[0]) then 1 + StripFrom(s[1..]) else 0
  }

  /** Where `strip()` ends: the length without trailing whitespace. */
  function StripTo(s: string): (m: nat)
    ensures m <= |s|
    ensures forall k :: m <= k < |s| ==> IsSpace(s[k])
    ensures m > 0 ==> !IsSpace(s[m - 1])
  {
    if s != [] && IsSpace(s[|s| - 1]) then StripTo(s[..|s| - 1]) else |s|
  }

  /** `strip()`: the slice between the leading and the trailing whitespace;
      it starts and ends with a non-whitespace character, everything outside
      it is whitespace. */
  function Strip(s: string): (r: string)
    ensures StripFrom(s) + |r| <= |s| && r == s[StripFrom(s)..StripFrom(s) + |r|]
    ensures forall k :: 0 <= k < StripFrom(s) || StripFrom(s) + |r| <= k < |s| ==> IsSpace(s[k])
    ensures r != [] ==> !IsSpace(r[0]) && !IsSpace(r[|r| - 1])
  {
    var i, j := StripFrom(s), StripTo(s);
    if i < j then s[i..j] else []
  }

  /** Stripping adds no character. */
  lemma StripAvoids(s: string, c: char)
    requires c !in s
    ensures c !in Strip(s)
  {
    var r := Strip(s);
    var i := StripFrom(s);
    forall k | 0 <= k < |r| ensures r[k] != c {
      assert r[k] == s[i + k];
    }
  }

  /** A string with no whitespace at either end strips to itself. */
  lemma StripClean(s: string)
    requires s != [] ==> !IsSpace(s[0]) && !IsSpace(s[|s| - 1])
    ensures Strip(s) == s
  {
  }

  /** A non-empty origin with no whitespace at either end. */
  predicate Trimmed(o: string) {
    o != [] && !IsSpace(o[0]) && !IsSpace(o[|o| - 1])
  }

  /** No piece contains `c`. */
  predicate Avoids(parts: seq<string>, c: char) {
    forall i :: 0 <= i < |parts| ==> c !in parts[i]
  }

  /** What one piece contributes: its stripped text, unless that is empty. */
  function Kept(part: string): (r: seq<string>)
    ensures |r| <= 1
    ensures forall k :: 0 <= k < |r| ==> Trimmed(r[k]) && r[k] == Strip(part)
  {
    if Strip(part) == [] then [] else [Strip(part)]
  }

  /** The list comprehension over the pieces: each piece stripped, the empty
      ones dropped. */
  function CleanOrigins(parts: seq<string>): seq<string> {
    FlatMap(Kept, parts)
  }

  /** Every origin kept is non-empty and trimmed. */
  lemma CleanOriginsTrimmed(parts: seq<string>)
    ensures forall k :: 0 <= k < |CleanOrigins(parts)| ==> Trimmed(CleanOrigins(parts)[k])
  {
    FlatMapEvery(Kept, parts, Trimmed);
  }

  /** Stripping only removes characters, so a character no piece holds is in
      no origin. */
  lemma CleanOriginsAvoids(parts: seq<string>, c: char)
    requires Avoids(parts, c)
    ensures Avoids(CleanOrigins(parts), c)
  {
    forall p | p in parts ensures c !in p && c !in Strip(p) {
      StripAvoids(p, c);
    }
    FlatMapEvery(Kept, parts, (o: string) => c !in o);
  }

  /** The output follows the order of the comma pieces: a piece contributes
      its stripped text, or nothing when that is empty. */
  lemma CleanOriginsAppend(a: seq<string>, b: seq<string>)
    ensures CleanOrigins(a + b) == CleanOrigins(a) + CleanOrigins(b)
  {
    FlatMapAppend(Kept, a, b);
  }

  lemma CleanOriginsSingle(p: string)
    ensures CleanOrigins([p]) == if Strip(p) == [] then [] else [Strip(p)]
  {
    assert [p][0] == p && [p][1..] == [];
    assert FlatMap(Kept, [p]) == Kept(p) + FlatMap(Kept, []);
    assert Kept(p) + [] == Kept(p);
  }

  /** `allowed_origins_list`. */
  function AllowedOriginsList(raw: string): (r: seq<string>)
    ensures forall k :: 0 <= k < |r| ==> Trimmed(r[k]) && ',' !in r[k]
  {
    var parts := Split(raw, ',');
    CleanOriginsAvoids(parts, ',');
    CleanOriginsTrimmed(parts);
    CleanOrigins(parts)
  }

  /** Origins that are non-empty, comma-free and already trimmed come back,
      in order, from the comma-joined setting. */
  lemma {:induction false} AllowedOriginsRoundTrip(origins: seq<string>)
    requires |origins| >= 1
    requires forall i :: 0 <= i < |origins| ==> Trimmed(origins[i]) && ',' !in origins[i]
    ensures AllowedOriginsList(Join(origins, ',')) == origins
  {
    SplitJoin(origins, ',');
    CleanOriginsOfClean(origins);
  }

  lemma {:induction false} CleanOriginsOfClean(origins: seq<string>)
    requires forall i :: 0 <= i < |origins| ==> Trimmed(origins[i])
    ensures CleanOrigins(origins) == origins
  {
    if origins != [] {
      StripClean(origins[0]);
      CleanOriginsOfClean(origins[1..]);
    }
  }

  /** The default setting allows exactly the local web app. */
  lemma DefaultOrigins()
    ensures AllowedOriginsList(AllowedOriginsDefault) == [AllowedOriginsDefault]
  {
    AllowedOriginsRoundTrip([AllowedOriginsDefault]);
  }
}

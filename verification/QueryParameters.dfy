/** The query parameters of a request of the web server: "?name=value&name=value". */
module QueryParameters {
  import opened Strings

  // ---------- splitting ----------

  /** `String.Split`: one part more than there are separators. */
  function Split(s: string, c: char): (parts: seq<string>)
    ensures |parts| > 0
    decreases |s|
  {
    var i := IndexOf(s, c, 0);
    if i == |s| then [s] else [s[..i]] + Split(s[i + 1..], c)
  }

  function Join(parts: seq<string>, c: char): string
    requires |parts| > 0
  {
    if |parts| == 1 then parts[0] else parts[0] + [c] + Join(parts[1..], c)
  }

  predicate Free(parts: seq<string>, c: char) {
    forall k :: 0 <= k < |parts| ==> c !in parts[k]
  }

  /** Splitting is the inverse of joining, on parts without the separator, and gives such parts. */
  lemma {:induction false} JoinSplit(s: string, c: char)
    ensures Join(Split(s, c), c) == s && Free(Split(s, c), c)
    decreases |s|
  {
    var i := IndexOf(s, c, 0);
    IndexIsFirst(s, c, 0);
    assert s[0..i] == s[..i];
    if i < |s| {
      JoinSplit(s[i + 1..], c);
      var rest := Split(s[i + 1..], c);
      assert ([s[..i]] + rest)[1..] == rest;
      assert s == s[..i] + [c] + s[i + 1..];
    } else {
      assert s[..i] == s;
    }
  }

  lemma {:induction false} SplitJoin(parts: seq<string>, c: char)
    requires |parts| > 0 && Free(parts, c)
    ensures Split(Join(parts, c), c) == parts
    decreases |parts|
  {
    var s, p := Join(parts, c), parts[0];
    if |parts| == 1 {
      assert s[..|p|] == p;
      IndexIs(s, c, 0, |p|);
    } else {
      var rest := Join(parts[1..], c);
      assert s == p + [c] + rest && s[..|p|] == p && s[|p| + 1..] == rest;
      IndexIs(s, c, 0, |p|);
      SplitJoin(parts[1..], c);
    }
  }

  // ---------- extraction ----------

  /** What `Remove(0, 1)` throws on an empty string, and what `Add` throws on a name that is there already. */
  datatype Result = Parameters(m: map<string, string>) | OutOfRange | DuplicateName

  /** A part counts when it has exactly one '='. */
  predicate IsPair(part: string) {
    |Split(part, '=')| == 2
  }

  function Name(part: string): string {
    Split(part, '=')[0]
  }

  function Value(part: string): string
    requires IsPair(part)
  {
    Split(part, '=')[1]
  }

  function AddAll(parts: seq<string>, m: map<string, string>): Result
    decreases |parts|
  {
    if parts == [] then Parameters(m)
    else if !IsPair(parts[0]) then AddAll(parts[1..], m)
    else if Name(parts[0]) in m then DuplicateName
    else AddAll(parts[1..], m[Name(parts[0]) := Value(parts[0])])
  }

  /** The parts between the '&', the first without its leading character. */
  function Parts(request: string): seq<string>
    requires request != "" && request[0] != '&'
  {
    Split(request[1..], '&')
  }

  function Extract(request: string): Result {
    if request == "" then Parameters(map[])
    else if request[0] == '&' then OutOfRange
    else AddAll(Parts(request), map[])
  }

  lemma FirstPart(request: string)
    requires request != ""
    ensures var parts := Split(request, '&');
      && (parts[0] == "" <==> request[0] == '&')
      && (request[0] != '&' ==> [parts[0][1..]] + parts[1..] == Parts(request))
  {
    var i := IndexOf(request, '&', 0);
    IndexIsFirst(request, '&', 0);
    if i > 0 {
      var tail := request[1..];
      assert request[0] == request[..i][0];
      var head := tail[..i - 1];
      forall k | 0 <= k < |head| ensures head[k] != '&' {
        assert request[0..i][k + 1] in request[0..i];
      }
      IndexIs(tail, '&', 0, i - 1);
      assert tail[..i - 1] == request[..i][1..];
      if i < |request| {
        assert tail[i..] == request[i + 1..];
      }
    }
  }

  method ExtractParameters(request: string) returns (r: Result)
    ensures r == Extract(request)
  {
    var parameters := map[];
    if request == "" {
      return Parameters(parameters);
    }
    var strings := Split(request, '&');
    FirstPart(request);
    if strings[0] == "" {
      return OutOfRange;
    }
    strings := strings[0 := strings[0][1..]];
    assert strings == Parts(request);
    var i := 0;
    while i < |strings|
      invariant 0 <= i <= |strings|
      invariant AddAll(strings[i..], parameters) == AddAll(strings, map[])
    {
      assert strings[i..][1..] == strings[i + 1..];
      var data := Split(strings[i], '=');
      if |data| == 2 {
        if data[0] in parameters {
          return DuplicateName;
        }
        parameters := parameters[data[0] := data[1]];
      }
      i := i + 1;
    }
    return Parameters(parameters);
  }

  // ---------- what is extracted ----------

  /** Some pair of `parts` has the name of an earlier one, or one that `m` has already. */
  predicate Repeats(parts: seq<string>, m: map<string, string>) {
    exists j :: 0 <= j < |parts| && IsPair(parts[j]) &&
      (Name(parts[j]) in m || exists i :: 0 <= i < j && IsPair(parts[i]) && Name(parts[i]) == Name(parts[j]))
  }

  predicate Holds(parts: seq<string>, m: map<string, string>, name: string, value: string) {
    || (name in m && m[name] == value)
    || exists i :: 0 <= i < |parts| && IsPair(parts[i]) && Name(parts[i]) == name && Value(parts[i]) == value
  }

  lemma RepeatsCons(parts: seq<string>, m: map<string, string>)
    requires parts != []
    ensures Repeats(parts, m) <==>
      if !IsPair(parts[0]) then Repeats(parts[1..], m)
      else Name(parts[0]) in m || Repeats(parts[1..], m[Name(parts[0]) := Value(parts[0])])
  {
    hide IsPair, Name, Value;
    var rest := parts[1..];
    var m' := if IsPair(parts[0]) then m[Name(parts[0]) := Value(parts[0])] else m;
    if Repeats(rest, m') {
      var j :| 0 <= j < |rest| && IsPair(rest[j]) &&
        (Name(rest[j]) in m' || exists i :: 0 <= i < j && IsPair(rest[i]) && Name(rest[i]) == Name(rest[j]));
      assert parts[j + 1] == rest[j];
      if i :| 0 <= i < j && IsPair(rest[i]) && Name(rest[i]) == Name(rest[j]) {
        assert parts[i + 1] == rest[i];
      }
    }
    if Repeats(parts, m) && !(IsPair(parts[0]) && Name(parts[0]) in m) {
      var j :| 0 <= j < |parts| && IsPair(parts[j]) &&
        (Name(parts[j]) in m || exists i :: 0 <= i < j && IsPair(parts[i]) && Name(parts[i]) == Name(parts[j]));
      assert j > 0 && rest[j - 1] == parts[j];
      if i :| 0 <= i < j && IsPair(parts[i]) && Name(parts[i]) == Name(parts[j]) {
        assert i > 0 ==> rest[i - 1] == parts[i];
      }
    }
  }

  lemma HoldsCons(parts: seq<string>, m: map<string, string>, name: string, value: string)
    requires parts != [] && (IsPair(parts[0]) ==> Name(parts[0]) !in m)
    ensures Holds(parts, m, name, value) <==>
      Holds(parts[1..], if IsPair(parts[0]) then m[Name(parts[0]) := Value(parts[0])] else m, name, value)
  {
    hide IsPair, Name, Value;
    var rest := parts[1..];
    if i :| 0 <= i < |parts| && IsPair(parts[i]) && Name(parts[i]) == name && Value(parts[i]) == value {
      assert i > 0 ==> rest[i - 1] == parts[i];
    }
    if i :| 0 <= i < |rest| && IsPair(rest[i]) && Name(rest[i]) == name && Value(rest[i]) == value {
      assert parts[i + 1] == rest[i];
    }
  }

  lemma {:induction false} AddAllExactly(parts: seq<string>, m: map<string, string>)
    ensures AddAll(parts, m) != OutOfRange
    ensures AddAll(parts, m) == DuplicateName <==> Repeats(parts, m)
    ensures forall name, value :: AddAll(parts, m).Parameters? ==>
      (Holds(parts, m, name, value) <==> name in AddAll(parts, m).m && AddAll(parts, m).m[name] == value)
    decreases |parts|
  {
    hide IsPair, Name, Value, Repeats;
    if parts == [] {
      assert !Repeats(parts, m) by { NothingRepeats(m); }
    } else {
      RepeatsCons(parts, m);
      if !(IsPair(parts[0]) && Name(parts[0]) in m) {
        AddAllExactly(parts[1..], if IsPair(parts[0]) then m[Name(parts[0]) := Value(parts[0])] else m);
        forall name, value
          ensures Holds(parts, m, name, value) <==>
            Holds(parts[1..], if IsPair(parts[0]) then m[Name(parts[0]) := Value(parts[0])] else m, name, value)
        {
          HoldsCons(parts, m, name, value);
        }
      }
    }
  }

  lemma NothingRepeats(m: map<string, string>)
    ensures !Repeats([], m)
  {
  }

  // ---------- in terms of the characters ----------

  /** The part is `name`, an '=' and `value`, and that is its only '='. */
  predicate Reads(part: string, name: string, value: string) {
    part == name + ['='] + value && '=' !in name && '=' !in value
  }

  /** The parts that count are those with exactly one '='; the name is what stands before it, the value what follows. */
  lemma {:induction false} PairExactly(part: string, name: string, value: string)
    ensures IsPair(part) && Name(part) == name && Value(part) == value <==> Reads(part, name, value)
  {
    if IsPair(part) {
      JoinSplit(part, '=');
      var parts := Split(part, '=');
      assert parts[1..] == [parts[1]] && Join([parts[1]], '=') == parts[1];
      assert part == parts[0] + ['='] + parts[1] && '=' !in parts[0] && '=' !in parts[1];
    }
    if Reads(part, name, value) {
      assert [name, value][1..] == [value] && Join([value], '=') == value;
      SplitJoin([name, value], '=');
    }
  }

  /** A part with no '=', or with two of them, does not count. */
  lemma {:induction false} NoPairExactly(part: string)
    ensures !IsPair(part) <==>
      '=' !in part || exists i :: 0 <= i < |part| && part[i] == '=' && '=' in part[i + 1..]
  {
    hide IsPair, Name, Value;
    if IsPair(part) {
      PairExactly(part, Name(part), Value(part));
      var n := |Name(part)|;
      assert part[n] == '=' && part[n + 1..] == Value(part);
      forall i | 0 <= i < n ensures part[i] != '=' {
        assert part[i] == Name(part)[i];
      }
    } else if '=' in part {
      var n :| 0 <= n < |part| && part[n] == '=';
      PairExactly(part, part[..n], part[n + 1..]);
      assert part == part[..n] + ['='] + part[n + 1..];
      if '=' in part[..n] {
        var k :| 0 <= k < n && part[..n][k] == '=';
        assert part[k + 1..][n - k - 1] == '=' && part[k] == '=';
      }
    }
  }

  /** Two of the parts count and have the same name. */
  ghost predicate NamesAgree(parts: seq<string>, i: nat, j: nat) {
    i < j < |parts| && exists name, v, w :: Reads(parts[i], name, v) && Reads(parts[j], name, w)
  }

  predicate SomeReads(parts: seq<string>, name: string, value: string) {
    exists i :: 0 <= i < |parts| && Reads(parts[i], name, value)
  }

  lemma {:induction false} RepeatsMeansAgree(parts: seq<string>)
    ensures Repeats(parts, map[]) <==> exists i, j :: 0 <= i < j < |parts| && NamesAgree(parts, i, j)
  {
    hide IsPair, Name, Value, Reads;
    if Repeats(parts, map[]) {
      var j :| 0 <= j < |parts| && IsPair(parts[j]) &&
        exists i :: 0 <= i < j && IsPair(parts[i]) && Name(parts[i]) == Name(parts[j]);
      var i :| 0 <= i < j && IsPair(parts[i]) && Name(parts[i]) == Name(parts[j]);
      PairExactly(parts[i], Name(parts[i]), Value(parts[i]));
      PairExactly(parts[j], Name(parts[j]), Value(parts[j]));
      assert NamesAgree(parts, i, j);
    }
    if i, j :| 0 <= i < j < |parts| && NamesAgree(parts, i, j) {
      var name, v, w :| Reads(parts[i], name, v) && Reads(parts[j], name, w);
      PairExactly(parts[i], name, v);
      PairExactly(parts[j], name, w);
    }
  }

  lemma {:induction false} HoldsMeansReads(parts: seq<string>, name: string, value: string)
    ensures Holds(parts, map[], name, value) <==> SomeReads(parts, name, value)
  {
    hide IsPair, Name, Value, Reads;
    forall i | 0 <= i < |parts|
      ensures IsPair(parts[i]) && Name(parts[i]) == name && Value(parts[i]) == value
        <==> Reads(parts[i], name, value)
    {
      PairExactly(parts[i], name, value);
    }
  }

  /**
    For every request: the empty one has no parameters. Any other is one character and then parts without '&', joined
    by '&'. It is refused as out of range if and only if the character is '&', and for a repeated name, if it is not,
    if and only if two of the parts with one '=' have the same name before it. Otherwise the parameters are exactly
    the names and values around the only '=' of such parts.
   */
  lemma {:induction false} ExtractExactly(request: string) returns (parts: seq<string>)
    ensures request == "" ==> Extract(request) == Parameters(map[])
    ensures request != "" ==> parts != [] && Free(parts, '&') && request[1..] == Join(parts, '&')
    ensures Extract(request) == OutOfRange <==> request != "" && request[0] == '&'
    ensures request != "" && request[0] != '&' ==>
      (Extract(request) == DuplicateName <==> exists i, j :: 0 <= i < j < |parts| && NamesAgree(parts, i, j))
    ensures forall name, value :: request != "" && Extract(request).Parameters? ==>
      (SomeReads(parts, name, value) <==> name in Extract(request).m && Extract(request).m[name] == value)
  {
    hide Repeats, Holds, AddAll, NamesAgree, SomeReads, Split;
    parts := [];
    if request != "" {
      parts := Split(request[1..], '&');
      JoinSplit(request[1..], '&');
      if request[0] != '&' {
        AddAllExactly(parts, map[]);
        RepeatsMeansAgree(parts);
        forall name, value ensures Holds(parts, map[], name, value) <==> SomeReads(parts, name, value) {
          HoldsMeansReads(parts, name, value);
        }
      }
    }
  }

  // ---------- the round trip ----------

  function Spell(pair: (string, string)): string {
    pair.0 + "=" + pair.1
  }

  function SpellAll(pairs: seq<(string, string)>): seq<string> {
    seq(|pairs|, k requires 0 <= k < |pairs| => Spell(pairs[k]))
  }

  /** Neither separator in a name or a value. */
  predicate Plain(pairs: seq<(string, string)>) {
    forall k :: 0 <= k < |pairs| ==>
      '&' !in pairs[k].0 && '=' !in pairs[k].0 && '&' !in pairs[k].1 && '=' !in pairs[k].1
  }

  predicate DistinctNames(pairs: seq<(string, string)>) {
    forall i, j :: 0 <= i < j < |pairs| ==> pairs[i].0 != pairs[j].0
  }

  lemma SpelledIsPair(name: string, value: string)
    requires '=' !in name && '=' !in value
    ensures var part := Spell((name, value)); IsPair(part) && Name(part) == name && Value(part) == value
  {
    var parts := [name, value];
    assert parts[1..] == [value] && Join([value], '=') == value;
    assert Join(parts, '=') == Spell((name, value));
    SplitJoin(parts, '=');
  }

  lemma SpelledIsFree(pairs: seq<(string, string)>)
    requires Plain(pairs)
    ensures Free(SpellAll(pairs), '&')
  {
  }

  /** "?k=v&k=v" with plain, distinct names gives back exactly the pairs it was made of. */
  lemma ExtractSpelled(pairs: seq<(string, string)>)
    requires pairs != [] && Plain(pairs)
    ensures var request := "?" + Join(SpellAll(pairs), '&');
      && (Extract(request).Parameters? <==> DistinctNames(pairs))
      && (DistinctNames(pairs) ==>
           forall name, value :: (name, value) in pairs
             <==> name in Extract(request).m && Extract(request).m[name] == value)
  {
    hide IsPair, Name, Value, AddAll, Extract, Split, SomeReads, NamesAgree, DistinctNames;
    var parts := SpellAll(pairs);
    var request := "?" + Join(parts, '&');
    assert request[1..] == Join(parts, '&') && request != "" && request[0] == '?';
    SpelledIsFree(pairs);
    SplitJoin(parts, '&');
    var extracted := ExtractExactly(request);
    SplitJoin(extracted, '&');
    assert extracted == parts;
    forall name, value ensures SomeReads(parts, name, value) <==> (name, value) in pairs {
      SpelledReads(pairs, name, value);
    }
    SpelledNames(pairs);
  }

  lemma {:induction false} SpelledReads(pairs: seq<(string, string)>, name: string, value: string)
    requires Plain(pairs)
    ensures SomeReads(SpellAll(pairs), name, value) <==> (name, value) in pairs
  {
    hide IsPair, Name, Value;
    var parts := SpellAll(pairs);
    if i :| 0 <= i < |pairs| && pairs[i] == (name, value) {
      assert Reads(parts[i], name, value);
    }
    if i :| 0 <= i < |parts| && Reads(parts[i], name, value) {
      SpelledIsPair(pairs[i].0, pairs[i].1);
      PairExactly(parts[i], name, value);
      assert pairs[i] == (name, value);
    }
  }

  lemma {:induction false} SpelledNames(pairs: seq<(string, string)>)
    requires Plain(pairs)
    ensures DistinctNames(pairs) <==> !exists i, j :: 0 <= i < j < |pairs| && NamesAgree(SpellAll(pairs), i, j)
  {
    hide IsPair, Name, Value;
    var parts := SpellAll(pairs);
    if !DistinctNames(pairs) {
      var i, j :| 0 <= i < j < |pairs| && pairs[i].0 == pairs[j].0;
      assert Reads(parts[i], pairs[i].0, pairs[i].1) && Reads(parts[j], pairs[i].0, pairs[j].1);
      assert NamesAgree(parts, i, j);
    }
    if i, j :| 0 <= i < j < |pairs| && NamesAgree(parts, i, j) {
      var name, v, w :| Reads(parts[i], name, v) && Reads(parts[j], name, w);
      PairExactly(parts[i], name, v);
      PairExactly(parts[j], name, w);
      SpelledIsPair(pairs[i].0, pairs[i].1);
      SpelledIsPair(pairs[j].0, pairs[j].1);
      assert pairs[i].0 == pairs[j].0;
    }
  }
}

/** Two parsers for a line of the trace: the benchmark's (src/main.cpp) and the plot script's
    (testdata/main.py). */
module Trace {
  const NAME_FIELD := 5

  /** The first space from `at` on, or the end. */
  function NextSpace(s: string, at: nat): (k: nat)
    requires at <= |s|
    ensures at <= k <= |s|
    ensures k < |s| ==> s[k] == ' '
    ensures at < k ==> s[k - 1] != ' '
    decreases |s| - at
  {
    if at == |s| || s[at] == ' ' then at else NextSpace(s, at + 1)
  }

  /** s[at..].split(" ", maxsplit=n). */
  function Split(s: string, at: nat, n: nat): (r: seq<string>)
    requires at <= |s|
    ensures 1 <= |r| <= n + 1
    decreases n
  {
    var k := NextSpace(s, at);
    if n == 0 || k == |s| then [s[at..]] else [s[at..k]] + Split(s, k + 1, n - 1)
  }

  function WithoutReturns(s: string): (r: string)
    ensures |r| <= |s|
    ensures r == s <==> '\r' !in s
  {
    if s == "" then "" else
      assert s == s[..|s| - 1] + [s[|s| - 1]];
      WithoutReturns(s[..|s| - 1]) + if s[|s| - 1] == '\r' then "" else [s[|s| - 1]]
  }

  predicate EndsInSpace(s: string) { s != "" && s[|s| - 1] == ' ' }

  function WithoutLastSpace(s: string): string
  {
    if EndsInSpace(s) then s[..|s| - 1] else s
  }

  /** The line that the script has for a line of the file: it opens the file in text mode and splits it
      into lines, so a carriage return at the end is part of the line break. */
  function ScriptLine(line: string): string
  {
    if line != "" && line[|line| - 1] == '\r' then line[..|line| - 1] else line
  }

  /** The characters at which str.splitlines ends a line. */
  predicate IsBreak(c: char)
  {
    c == '\n' || c == '\r' || c == '\U{0B}' || c == '\U{0C}' || '\U{1C}' <= c <= '\U{1E}'
    || c == '\U{85}' || c == '\U{2028}' || c == '\U{2029}'
  }

  /** The line is one line for the script, too. */
  predicate OneLine(line: string)
  {
    forall i :: 0 <= i < |ScriptLine(line)| ==> !IsBreak(ScriptLine(line)[i])
  }

  /** The script has these parts for the line. */
  ghost predicate ScriptSplits(line: string, parts: seq<string>)
  {
    OneLine(line) && parts == Split(ScriptLine(line), 0, NAME_FIELD)
  }

  // ---- What these functions do ------------------------------------------------------

  /** The parts with a space between each two. */
  function Joined(parts: seq<string>): string
  {
    if parts == [] then "" else if |parts| == 1 then parts[0] else parts[0] + " " + Joined(parts[1..])
  }

  /** Splitting is undone by joining; it leaves no space in a part but the last, and in the last one only
      after n cuts. */
  lemma {:induction false} SplitLaw(s: string, at: nat, n: nat)
    requires at <= |s|
    ensures Joined(Split(s, at, n)) == s[at..]
    ensures forall k :: 0 <= k < |Split(s, at, n)| && (k < |Split(s, at, n)| - 1 || k < n) ==>
              ' ' !in Split(s, at, n)[k]
    decreases n
  {
    hide NextSpace, Joined;
    var k := NextSpace(s, at);
    NoSpaceBefore(s, at);
    if n > 0 && k < |s| {
      SplitLaw(s, k + 1, n - 1);
      Cut(s, at, k, Split(s, k + 1, n - 1));
    } else {
      Cut(s, at, k, []);
    }
  }

  lemma Cut(s: string, at: nat, k: nat, rest: seq<string>)
    requires at <= k <= |s|
    ensures k == |s| ==> s[at..k] == s[at..]
    ensures Joined([s[at..]]) == s[at..]
    ensures k < |s| && s[k] == ' ' && rest != [] && Joined(rest) == s[k + 1..] ==>
              Joined([s[at..k]] + rest) == s[at..]
  {
    if k < |s| && s[k] == ' ' && rest != [] && Joined(rest) == s[k + 1..] {
      assert ([s[at..k]] + rest)[1..] == rest;
      assert s[at..] == s[at..k] + " " + s[k + 1..];
    }
  }

  lemma {:induction false} NoSpaceBefore(s: string, at: nat)
    requires at <= |s|
    ensures ' ' !in s[at..NextSpace(s, at)]
    decreases |s| - at
  {
    if at < |s| && s[at] != ' ' {
      NoSpaceBefore(s, at + 1);
      assert s[at..NextSpace(s, at)] == [s[at]] + s[at + 1..NextSpace(s, at)];
    }
  }

  lemma {:induction false} ReturnsConcat(a: string, b: string)
    ensures WithoutReturns(a + b) == WithoutReturns(a) + WithoutReturns(b)
    decreases |b|
  {
    if b == "" {
      assert a + b == a;
    } else {
      assert (a + b)[..|a + b| - 1] == a + b[..|b| - 1];
      ReturnsConcat(a, b[..|b| - 1]);
    }
  }

  /** Cleaning drops the carriage returns and one space at the end, and keeps everything else in order. */
  lemma CleaningLaw(a: string, b: string, c: char)
    ensures WithoutReturns(a + b) == WithoutReturns(a) + WithoutReturns(b)
    ensures WithoutReturns("") == "" && WithoutReturns([c]) == if c == '\r' then "" else [c]
    ensures WithoutLastSpace(a + " ") == a && (c != ' ' ==> WithoutLastSpace(a + [c]) == a + [c])
    ensures WithoutLastSpace("") == ""
  {
    assert [c][..0] == "";
    ReturnsConcat(a, b);
  }

  // ---- Where the remainder starts -----------------------------------------------

  /** The position after the n-th space from `at` on, -1 if there are fewer. */
  function Skip(s: string, at: nat, n: nat): (p: int)
    requires at <= |s|
    ensures p == -1 || at <= p <= |s|
    decreases n
  {
    if n == 0 then at
    else if NextSpace(s, at) == |s| then -1
    else Skip(s, NextSpace(s, at) + 1, n - 1)
  }

  /** The script's last part is the remainder after n spaces. */
  lemma {:induction false} SplitIsSkip(s: string, at: nat, n: nat)
    requires at <= |s|
    ensures |Split(s, at, n)| == n + 1 <==> Skip(s, at, n) >= 0
    ensures Skip(s, at, n) >= 0 ==> Split(s, at, n)[n] == s[Skip(s, at, n)..]
    decreases n
  {
    var k := NextSpace(s, at);
    if n > 0 && k < |s| {
      SplitIsSkip(s, k + 1, n - 1);
    }
  }

  /** One space further. */
  lemma {:induction false} SkipNext(s: string, at: nat, n: nat)
    requires at <= |s|
    ensures var p := Skip(s, at, n);
            Skip(s, at, n + 1) == if p == -1 || NextSpace(s, p) == |s| then -1 else NextSpace(s, p) + 1
    decreases n
  {
    if n > 0 && NextSpace(s, at) < |s| {
      SkipNext(s, NextSpace(s, at) + 1, n - 1);
    }
  }

  lemma SplitStep(s: string, at: nat, n: nat, k: nat)
    requires at <= |s| && n > 0 && NextSpace(s, at) < |s| && k < |Split(s, NextSpace(s, at) + 1, n - 1)|
    ensures Split(s, at, n)[0] == s[at..NextSpace(s, at)]
    ensures |Split(s, at, n)| == |Split(s, NextSpace(s, at) + 1, n - 1)| + 1
    ensures Split(s, at, n)[k + 1] == Split(s, NextSpace(s, at) + 1, n - 1)[k]
  {
  }

  /** The k-th of the parts before the remainder lies between two spaces. */
  lemma {:induction false} SplitPart(s: string, at: nat, n: nat, k: nat)
    requires at <= |s| && k < n && Skip(s, at, n) >= 0
    ensures |Split(s, at, n)| == n + 1 && Skip(s, at, k) >= 0
    ensures Split(s, at, n)[k] == s[Skip(s, at, k)..NextSpace(s, Skip(s, at, k))]
    decreases n
  {
    SplitIsSkip(s, at, n);
    var next := NextSpace(s, at) + 1;
    if k == 0 {
      SplitStep(s, at, n, 0);
    } else {
      SplitPart(s, next, n - 1, k - 1);
      SplitStep(s, at, n, k - 1);
      assert Skip(s, at, k) == Skip(s, next, k - 1);
    }
  }

  // ---- The fields of the benchmark ------------------------------------------------

  predicate HasMore(s: string, k: nat) { 0 <= Skip(s, 0, k) < |s| }

  /** Field k lies between the k-th space and the next, or the end. */
  predicate IsField(s: string, k: nat, field: string)
  {
    HasMore(s, k) && field == s[Skip(s, 0, k)..NextSpace(s, Skip(s, 0, k))]
  }

  /** The fields that repeated getline calls extract: the pieces between spaces, as long as something is
      left, so there is no empty field after a final space. */
  ghost predicate AreFields(s: string, fields: seq<string>)
  {
    (forall k :: 0 <= k < |fields| ==> IsField(s, k, fields[k])) && !HasMore(s, |fields|)
  }

  method ReadFields(line: string) returns (elems: seq<string>)
    ensures AreFields(line, elems)
  {
    elems := [];
    var at := 0;
    while at < |line|
      invariant Skip(line, 0, |elems|) == if at <= |line| then at else -1
      invariant forall k :: 0 <= k < |elems| ==> IsField(line, k, elems[k])
      decreases |line| - at
    {
      var k := NextSpace(line, at);
      SkipNext(line, 0, |elems|);
      elems := elems + [line[at..k]];
      at := k + 1;
    }
  }

  lemma {:induction false} NothingMore(s: string, k: nat, n: nat)
    requires k <= n && !HasMore(s, k)
    ensures !HasMore(s, n)
  {
    if k < n {
      NothingMore(s, k, n - 1);
      SkipNext(s, 0, n - 1);
    }
  }

  /** There are more than n fields exactly when the line goes on after its n-th space. */
  lemma FieldsEnd(s: string, fields: seq<string>, n: nat)
    requires AreFields(s, fields)
    ensures n < |fields| <==> HasMore(s, n)
  {
    if n < |fields| {
      assert IsField(s, n, fields[n]);
    } else {
      NothingMore(s, |fields|, n);
    }
  }

  /** The end of the line, or the final space. */
  function LastEnd(s: string): nat
  {
    if EndsInSpace(s) then |s| - 1 else |s|
  }

  lemma LastField(s: string, fields: seq<string>)
    requires AreFields(s, fields) && fields != []
    ensures HasMore(s, |fields| - 1) && NextSpace(s, Skip(s, 0, |fields| - 1)) == LastEnd(s)
  {
    hide Skip, NextSpace;
    var k := |fields| - 1;
    assert IsField(s, k, fields[k]);
    SkipNext(s, 0, k);
  }

  lemma Glue(s: string, a: nat, b: nat, c: nat)
    requires a <= b < c <= |s| && s[b] == ' '
    ensures s[a..b] + " " + s[b + 1..c] == s[a..c]
  {
  }

  lemma {:induction false} FieldsJoin(s: string, fields: seq<string>, p: nat)
    requires AreFields(s, fields) && p < |fields|
    ensures HasMore(s, p) && Skip(s, 0, p) <= LastEnd(s)
    ensures Joined(fields[p..]) == s[Skip(s, 0, p)..LastEnd(s)]
    decreases |fields| - p
  {
    hide Skip, NextSpace;
    assert IsField(s, p, fields[p]);
    if p == |fields| - 1 {
      LastField(s, fields);
      assert fields[p..] == [fields[p]];
    } else {
      FieldsJoin(s, fields, p + 1);
      SkipNext(s, 0, p);
      assert fields[p..][1..] == fields[p + 1..];
      Glue(s, Skip(s, 0, p), NextSpace(s, Skip(s, 0, p)), LastEnd(s));
    }
  }

  /** The fields have no spaces, and joined they are the line without a space at its end. */
  lemma FieldsLaw(s: string, fields: seq<string>)
    requires AreFields(s, fields)
    ensures Joined(fields) == WithoutLastSpace(s)
    ensures forall k :: 0 <= k < |fields| ==> ' ' !in fields[k]
  {
    hide Skip;
    forall k | 0 <= k < |fields| ensures ' ' !in fields[k] {
      assert IsField(s, k, fields[k]);
      NoSpaceBefore(s, Skip(s, 0, k));
    }
    if fields != [] {
      FieldsJoin(s, fields, 0);
      SkipNone(s);
      assert fields[0..] == fields && s[..|s|] == s;
    } else {
      SkipNone(s);
    }
  }

  lemma SkipNone(s: string)
    ensures Skip(s, 0, 0) == 0
  {
  }

  method JoinName(elems: seq<string>, ghost line: string) returns (name: string)
    requires AreFields(line, elems) && |elems| > NAME_FIELD
    ensures HasMore(line, NAME_FIELD) && Skip(line, 0, NAME_FIELD) <= LastEnd(line)
    ensures name == line[Skip(line, 0, NAME_FIELD)..LastEnd(line)]
  {
    hide Skip, NextSpace;
    name := elems[NAME_FIELD];
    assert IsField(line, NAME_FIELD, elems[NAME_FIELD]);
    ghost var start := Skip(line, 0, NAME_FIELD);
    ghost var end := NextSpace(line, start);
    for p := NAME_FIELD + 1 to |elems|
      invariant HasMore(line, p - 1) && end == NextSpace(line, Skip(line, 0, p - 1))
      invariant start <= end && name == line[start..end]
    {
      assert IsField(line, p, elems[p]);
      SkipNext(line, 0, p - 1);
      Glue(line, start, end, NextSpace(line, end + 1));
      end := NextSpace(line, end + 1);
      name := name + " " + elems[p];
    }
    LastField(line, elems);
  }

  /** The name of a line that goes on after its fifth space is what follows, without one final space and
      without carriage returns. It is the name that the script has exactly when the line does not end in
      a space. */
  method ParseName(line: string) returns (name: string)
    requires HasMore(line, NAME_FIELD)
    ensures |Split(line, 0, NAME_FIELD)| == NAME_FIELD + 1
    ensures name == WithoutReturns(WithoutLastSpace(Split(line, 0, NAME_FIELD)[NAME_FIELD]))
    ensures forall parts :: ScriptSplits(line, parts) ==>
              |parts| == NAME_FIELD + 1 && (name == parts[NAME_FIELD] <==> !EndsInSpace(line))
  {
    var elems := ReadFields(line);
    FieldsEnd(line, elems, NAME_FIELD);
    name := JoinName(elems, line);
    ghost var p := Skip(line, 0, NAME_FIELD);
    SplitIsSkip(line, 0, NAME_FIELD);
    SkipOfScriptLine(line, NAME_FIELD);
    SplitIsSkip(ScriptLine(line), 0, NAME_FIELD);
    TrimmedIs(line, p);
    CleanedName(line, p);
    name := WithoutReturns(name);
  }

  lemma TrimmedIs(s: string, at: nat)
    requires at < |s|
    ensures at <= LastEnd(s) && s[at..LastEnd(s)] == WithoutLastSpace(s[at..])
  {
    assert s[at..][..|s| - at - 1] == s[at..|s| - 1];
  }

  // ---- Agreement of the two parsers ------------------------------------------------

  /** A last character that is no space changes no boundary. */
  lemma {:induction false} NextSpaceOfFront(s: string, at: nat)
    requires s != "" && s[|s| - 1] != ' ' && at < |s|
    ensures NextSpace(s[..|s| - 1], at) == if NextSpace(s, at) == |s| then |s| - 1 else NextSpace(s, at)
    decreases |s| - at
  {
    if s[at] != ' ' && at < |s| - 1 {
      NextSpaceOfFront(s, at + 1);
    }
  }

  lemma {:induction false} SkipOfFront(s: string, at: nat, n: nat)
    requires s != "" && s[|s| - 1] != ' ' && at < |s|
    ensures Skip(s[..|s| - 1], at, n) == Skip(s, at, n) < |s|
    decreases n
  {
    NextSpaceOfFront(s, at);
    if n > 0 && NextSpace(s, at) < |s| {
      SkipOfFront(s, NextSpace(s, at) + 1, n - 1);
    }
  }

  lemma SkipOfScriptLine(line: string, n: nat)
    requires 0 <= Skip(line, 0, n) < |line|
    ensures Skip(ScriptLine(line), 0, n) == Skip(line, 0, n) <= |ScriptLine(line)|
  {
    if ScriptLine(line) != line {
      SkipOfFront(line, 0, n);
    }
  }

  /** The k-th space is the same in both lines, as long as another space follows. */
  lemma SamePlaces(line: string, k: nat)
    requires 0 <= Skip(line, 0, k + 1) < |line|
    ensures var t := ScriptLine(line);
            && 0 <= Skip(t, 0, k) == Skip(line, 0, k) <= |t|
            && Skip(t, 0, k + 1) == Skip(line, 0, k + 1)
            && NextSpace(t, Skip(t, 0, k)) == NextSpace(line, Skip(line, 0, k)) == Skip(line, 0, k + 1) - 1
  {
    SkipNext(line, 0, k);
    SkipOfScriptLine(line, k);
    SkipOfScriptLine(line, k + 1);
    SkipNext(ScriptLine(line), 0, k);
  }

  lemma ScriptPart(line: string, k: nat)
    requires k < NAME_FIELD && 0 <= Skip(line, 0, k) < Skip(line, 0, k + 1) < |line|
    requires 0 <= Skip(line, 0, NAME_FIELD) < |line|
    ensures |Split(ScriptLine(line), 0, NAME_FIELD)| == NAME_FIELD + 1
    ensures Split(ScriptLine(line), 0, NAME_FIELD)[k] == line[Skip(line, 0, k)..Skip(line, 0, k + 1) - 1]
  {
    hide Skip, NextSpace, Split;
    SamePlaces(line, k);
    SkipOfScriptLine(line, NAME_FIELD);
    SplitPart(ScriptLine(line), 0, NAME_FIELD, k);
  }

  /** Both parsers see the same first five fields. */
  lemma SameFirstFields(line: string, fields: seq<string>, parts: seq<string>, k: nat)
    requires AreFields(line, fields) && |fields| > NAME_FIELD && k < NAME_FIELD
    requires ScriptSplits(line, parts)
    ensures |parts| == NAME_FIELD + 1 && fields[k] == parts[k]
  {
    FieldsEnd(line, fields, k + 1);
    FieldsEnd(line, fields, NAME_FIELD);
    assert IsField(line, k, fields[k]);
    SkipNext(line, 0, k);
    ScriptPart(line, k);
  }

  /** What the benchmark makes of the remainder, compared with the script's. */
  lemma CleanedName(line: string, p: nat)
    requires p < |line| && p <= |ScriptLine(line)|
    ensures OneLine(line) ==>
              (WithoutReturns(WithoutLastSpace(line[p..])) == ScriptLine(line)[p..] <==> !EndsInSpace(line))
  {
    var name, script := line[p..], ScriptLine(line)[p..];
    if OneLine(line) {
      assert forall i :: 0 <= i < |script| ==> script[i] == ScriptLine(line)[p + i];
      assert '\r' !in script;
      if ScriptLine(line) != line {
        assert name[..|name| - 1] == script && name[|name| - 1] == '\r';
      }
    }
  }

  /** The benchmark reads past its fields exactly on a line that the script splits into fewer parts, or
      into six of which the last is empty with no carriage return behind it. */
  lemma FieldExistsIff(line: string, fields: seq<string>, parts: seq<string>)
    requires AreFields(line, fields) && ScriptSplits(line, parts)
    ensures |fields| > NAME_FIELD <==>
            |parts| == NAME_FIELD + 1 && (parts[NAME_FIELD] != "" || ScriptLine(line) != line)
  {
    FieldsEnd(line, fields, NAME_FIELD);
    SplitIsSkip(ScriptLine(line), 0, NAME_FIELD);
    if ScriptLine(line) != line {
      SkipOfFront(line, 0, NAME_FIELD);
    }
  }

  // ---- Lines on which the parsers differ ----------------------------------------------

  lemma {:induction false} NextSpaceIs(s: string, at: nat, k: nat)
    requires at <= k <= |s| && (forall i :: at <= i < k ==> s[i] != ' ') && (k < |s| ==> s[k] == ' ')
    ensures NextSpace(s, at) == k
    decreases k - at
  {
    if at < k {
      NextSpaceIs(s, at + 1, k);
    }
  }

  /** Five fields of one letter each. */
  predicate FiveFields(s: string)
  {
    |s| >= 10 && forall i :: 0 <= i < 10 ==> (s[i] == ' ' <==> i % 2 == 1)
  }

  lemma SplitFive(s: string)
    requires FiveFields(s)
    ensures Skip(s, 0, NAME_FIELD) == 10
    ensures |Split(s, 0, NAME_FIELD)| == NAME_FIELD + 1 && Split(s, 0, NAME_FIELD)[NAME_FIELD] == s[10..]
  {
    NextSpaceIs(s, 0, 1);
    NextSpaceIs(s, 2, 3);
    NextSpaceIs(s, 4, 5);
    NextSpaceIs(s, 6, 7);
    NextSpaceIs(s, 8, 9);
    assert Skip(s, 8, 1) == Skip(s, 10, 0) == 10;
    assert Skip(s, 6, 2) == Skip(s, 8, 1);
    assert Skip(s, 4, 3) == Skip(s, 6, 2);
    assert Skip(s, 2, 4) == Skip(s, 4, 3);
    SplitIsSkip(s, 0, NAME_FIELD);
  }

  const FIVE := "a b c d e "

  lemma FiveAre(rest: string)
    ensures FiveFields(FIVE + rest) && (FIVE + rest)[10..] == rest
  {
    assert forall i :: 0 <= i < 10 ==> (FIVE + rest)[i] == FIVE[i];
  }

  lemma FiveIsOneLine(rest: string)
    requires rest == "" || rest == "f "
    ensures OneLine(FIVE + rest) && ScriptLine(FIVE + rest) == FIVE + rest
  {
    assert forall i :: 0 <= i < 10 ==> !IsBreak(FIVE[i]);
    assert forall i :: 0 <= i < |rest| ==> !IsBreak(rest[i]);
    assert FIVE[9] == ' ';
  }

  /** A line that ends in a space: the script's name ends in it, too, the benchmark's does not. */
  lemma FinalSpaceIsLost(parts: seq<string>)
    requires ScriptSplits(FIVE + "f ", parts)
    ensures HasMore(FIVE + "f ", NAME_FIELD) && |parts| == NAME_FIELD + 1 && parts[NAME_FIELD] == "f "
    ensures Split(FIVE + "f ", 0, NAME_FIELD) == parts
    ensures WithoutReturns(WithoutLastSpace("f ")) == "f"
  {
    FiveAre("f ");
    FiveIsOneLine("f ");
    SplitFive(FIVE + "f ");
    CleanF();
  }

  lemma CleanF()
    ensures WithoutReturns(WithoutLastSpace("f ")) == "f"
  {
    assert "f "[..1] == "f";
  }

  /** A line that ends after the fifth space: the script's name is empty, the benchmark's field is
      missing. */
  lemma SixthFieldIsMissing(fields: seq<string>, parts: seq<string>)
    requires AreFields(FIVE, fields) && ScriptSplits(FIVE, parts)
    ensures |parts| == NAME_FIELD + 1 && parts[NAME_FIELD] == ""
    ensures |fields| <= NAME_FIELD
  {
    assert FIVE + "" == FIVE;
    FiveAre("");
    FiveIsOneLine("");
    NothingAfterFive(FIVE, fields, parts);
  }

  lemma NothingAfterFive(s: string, fields: seq<string>, parts: seq<string>)
    requires FiveFields(s) && |s| == 10 && ScriptLine(s) == s
    requires AreFields(s, fields) && ScriptSplits(s, parts)
    ensures |parts| == NAME_FIELD + 1 && parts[NAME_FIELD] == "" && |fields| <= NAME_FIELD
  {
    SplitFive(s);
    FieldsEnd(s, fields, NAME_FIELD);
  }

  /** The script does have parts for both lines. */
  lemma ExamplesAreLines()
    ensures ScriptSplits(FIVE + "f ", Split(FIVE + "f ", 0, NAME_FIELD))
    ensures ScriptSplits(FIVE, Split(FIVE, 0, NAME_FIELD))
  {
    FiveIsOneLine("f ");
    FiveIsOneLine("");
    assert FIVE + "" == FIVE;
  }
}

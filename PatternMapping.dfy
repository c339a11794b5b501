// PatternMapping: one regex rewrite rule of the value-mapping stage. A rule
// rewrites a value with its output template when its input pattern is found
// in it; a list of rules is applied either as a chain (mapSingleValue) or
// fanned out over one value (mapValues).
module PatternMapping {
  import opened Wrappers
  import opened Decimal

  /** A compiled input pattern. The regex engine is not modelled: its answers
      are function values. `rejectsOnEmpty(t)` says whether replaceAll with the
      template `t` throws over the empty input the matcher starts with. */
  datatype Regex = Regex(find: string -> bool,
                         replaceAll: (string, string) -> string,
                         groupCount: nat,
                         rejectsOnEmpty: string -> bool)

  /** Why the constructor throws: a syntax error in the input pattern, a template
      the engine rejects, a `$` whose number does not parse (NumberFormatException,
      carrying the text handed to parseInt), or a group beyond the pattern's
      groups (IndexerSpecException). */
  datatype SpecError =
    | PatternSyntax
    | TemplateRejected
    | NumberFormat(num: string)
    | UnknownGroup(groupMax: int)

  // ---------------------------------------------------------------------
  // The $N scan of the output template
  // ---------------------------------------------------------------------

  /** The characters `.` does not match in a java.util.regex pattern. */
  predicate IsLineTerminator(c: char) {
    c == '\n' || c == '\r' || c == '\U{0085}' || c == '\U{2028}' || c == '\U{2029}'
  }

  /** The length of the run of ASCII digits that starts `s`. */
  function DigitRun(s: string): (n: nat)
    ensures n <= |s|
    decreases |s|
  {
    if s != [] && IsDigit(s[0]) then 1 + DigitRun(s[1..]) else 0
  }

  lemma {:induction false} DigitRunIsMaximal(s: string)
    ensures AllDigits(s[..DigitRun(s)])
    ensures DigitRun(s) < |s| ==> !IsDigit(s[DigitRun(s)])
    decreases |s|
  {
    if s != [] && IsDigit(s[0]) {
      DigitRunIsMaximal(s[1..]);
      assert s[..DigitRun(s)] == [s[0]] + s[1..][..DigitRun(s[1..])];
    }
  }

  /** A string of digits is one digit run. */
  lemma {:induction false} DigitRunOfDigits(s: string)
    requires AllDigits(s)
    ensures DigitRun(s) == |s|
    decreases |s|
  {
    if s != [] {
      DigitRunOfDigits(s[1..]);
    }
  }

  /** What `.*` leaves of `t`: everything from its first line terminator on. */
  function FromLineEnd(t: string): (r: string)
    ensures r == [] || IsLineTerminator(r[0])
    ensures |r| <= |t|
    decreases |t|
  {
    if t == [] then [] else if IsLineTerminator(t[0]) then t else FromLineEnd(t[1..])
  }

  /** s.replaceFirst("[^0-9].*", ""): the leading digits, followed by whatever
      follows the first line terminator after the first non-digit. */
  function NumText(s: string): (num: string)
    ensures |num| <= |s|
  {
    var n := DigitRun(s);
    if n == |s| then s else s[..n] + FromLineEnd(s[n + 1..])
  }

  /** String.indexOf(c, from): the first position at or after `from` holding `c`, or -1. */
  function IndexOf(t: string, c: char, from: nat): (r: int)
    requires from <= |t|
    ensures r == -1 || (from <= r < |t| && t[r] == c)
    decreases |t| - from
  {
    if from == |t| then -1 else if t[from] == c then from else IndexOf(t, c, from + 1)
  }

  /** No position between `from` and the found one (or the end) holds `c`. */
  lemma {:induction false} IndexOfIsFirst(t: string, c: char, from: nat, i: int)
    requires from <= i < |t| && (IndexOf(t, c, from) == -1 || i < IndexOf(t, c, from))
    ensures t[i] != c
    decreases |t| - from
  {
    if from < i {
      IndexOfIsFirst(t, c, from + 1, i);
    }
  }

  /** Where the constructor's loop looks for the next `$`: just past the text
      after the `$` at `index` that it handed to parseInt. */
  function NumberEnd(t: string, index: int): (e: int)
    requires 0 <= index < |t|
    ensures index < e <= |t|
  {
    index + 1 + |NumText(t[index + 1..])|
  }

  /** The constructor's loop from the `$` at `index` (or from its end, at -1),
      with the largest group number seen so far. */
  function ScanFrom(t: string, index: int, groupMax: int): Result<int, string>
    requires -1 <= index < |t|
    decreases if index < 0 then 0 else |t| - index + 1
  {
    if index < 0 then Success(groupMax)
    else
      var num := NumText(t[index + 1..]);
      match ParseInt(num)
      case None => Failure(num)
      case Some(g) => ScanFrom(t, IndexOf(t, '$', NumberEnd(t, index)), Larger(g, groupMax))
  }

  /** One turn of the loop: the scan goes on from the next `$` after the parsed
      number, with the larger maximum. */
  lemma ScanFromStep(t: string, index: int, acc: int, g: int)
    requires 0 <= index < |t| && ParseInt(NumText(t[index + 1..])) == Some(g)
    ensures ScanFrom(t, index, acc)
      == ScanFrom(t, IndexOf(t, '$', NumberEnd(t, index)), Larger(g, acc))
  {
  }

  function Larger(a: int, b: int): int {
    if a > b then a else b
  }

  /** The largest group number the template refers to, or the text parseInt rejected. */
  function MaxGroup(t: string): Result<int, string> {
    ScanFrom(t, IndexOf(t, '$', 0), 0)
  }

  /** The `$` at `i` is followed by a digit. */
  predicate HasGroupAt(t: string, i: int) {
    0 <= i && i + 1 < |t| && IsDigit(t[i + 1])
  }

  /** The number written by the run of digits that starts `s`, read from the
      front onto the value `acc` of the digits before it. */
  function LeadingValue(s: string, acc: nat): nat
    decreases |s|
  {
    if s != [] && IsDigit(s[0]) then LeadingValue(s[1..], acc * 10 + DigitValue(s[0])) else acc
  }

  /** Reading the digit run from the front gives its decimal value. */
  lemma {:induction false} LeadingValueIsValue(s: string, q: string)
    requires AllDigits(q)
    ensures AllDigits(q + s[..DigitRun(s)])
    ensures LeadingValue(s, Value(q)) == Value(q + s[..DigitRun(s)])
    decreases |s|
  {
    DigitRunIsMaximal(s);
    if s != [] && IsDigit(s[0]) {
      var q' := q + [s[0]];
      assert q'[..|q'| - 1] == q;
      assert Value(q') == Value(q) * 10 + DigitValue(s[0]);
      LeadingValueIsValue(s[1..], q');
      assert q' + s[1..][..DigitRun(s[1..])] == q + s[..DigitRun(s)];
    } else {
      assert q + s[..DigitRun(s)] == q;
    }
  }

  /** The number written by the digits after the `$` at `i`. */
  function GroupAt(t: string, i: int): nat
    requires 0 <= i < |t|
  {
    LeadingValue(t[i + 1..], 0)
  }

  /** The group number after a `$` is the value of its digit run. */
  lemma GroupAtIsValue(t: string, i: int)
    requires 0 <= i < |t|
    ensures AllDigits(t[i + 1..][..DigitRun(t[i + 1..])])
    ensures GroupAt(t, i) == Value(t[i + 1..][..DigitRun(t[i + 1..])])
  {
    var s := t[i + 1..];
    LeadingValueIsValue(s, []);
    assert [] + s[..DigitRun(s)] == s[..DigitRun(s)];
  }

  /** parseInt accepts the scanned text only when it is exactly the digits after
      the `$`: at least one, and nothing else left by the replaceFirst. */
  lemma NumTextParse(s: string)
    ensures var num := NumText(s); var n := DigitRun(s);
      ParseInt(num).Some? ==> 1 <= n && num == s[..n] && AllDigits(num) && ParseInt(num).value == Value(num)
  {
    var n := DigitRun(s);
    var num := NumText(s);
    DigitRunIsMaximal(s);
    if n < |s| && FromLineEnd(s[n + 1..]) != [] {
      var rest := FromLineEnd(s[n + 1..]);
      assert num == s[..n] + rest;
      assert num[n] == rest[0] && !IsDigit(num[n]);
      if n == 0 {
        assert num[0] == rest[0];
      } else {
        assert num[0] == s[..n][0];
      }
      assert num[0] != '-' && num[0] != '+';
      assert !AllDigits(num);
    } else {
      assert num == s[..n];
      if n != 0 {
        ParseDigits(num);
      }
    }
  }

  /** A successful scan from `index` ends with at least the starting maximum,
      and with a larger one only when some `$` from there on carries it. */
  lemma {:induction false} ScanFromAttained(t: string, index: int, acc: int, m: int)
    requires -1 <= index < |t| && (index >= 0 ==> t[index] == '$')
    requires ScanFrom(t, index, acc) == Success(m)
    ensures acc <= m
    ensures m == acc || (index >= 0 && exists i :: index <= i < |t| && t[i] == '$' && GroupAt(t, i) == m)
    decreases if index < 0 then 0 else |t| - index + 1
  {
    if index >= 0 {
      NumTextParse(t[index + 1..]);
      var g := ParseInt(NumText(t[index + 1..])).value;
      GroupAtIsValue(t, index);
      assert g == GroupAt(t, index);
      ScanFromStep(t, index, acc, g);
      ScanFromAttained(t, IndexOf(t, '$', NumberEnd(t, index)), Larger(g, acc), m);
    }
  }

  /** A scan from a `$` succeeds only if the text after it parses. */
  lemma ScanFromParses(t: string, index: int, acc: int)
    requires 0 <= index < |t| && ScanFrom(t, index, acc).Success?
    ensures ParseInt(NumText(t[index + 1..])).Some?
  {
  }

  /** One turn of a successful scan: the text after the `$` parses, and the
      rest of the scan succeeds with the same result. */
  lemma ScanFromNext(t: string, index: int, acc: int, m: int)
    requires 0 <= index < |t|
    requires ScanFrom(t, index, acc) == Success(m)
    ensures ParseInt(NumText(t[index + 1..])).Some?
    ensures ScanFrom(t, IndexOf(t, '$', NumberEnd(t, index)),
                     Larger(ParseInt(NumText(t[index + 1..])).value, acc)) == Success(m)
  {
    ScanFromParses(t, index, acc);
    ScanFromStep(t, index, acc, ParseInt(NumText(t[index + 1..])).value);
  }

  /** When the text after a `$` parses, it is the digits that follow the `$`,
      and it parses to their group number. */
  lemma ParsedGroup(t: string, index: int)
    requires 0 <= index < |t|
    requires ParseInt(NumText(t[index + 1..])).Some?
    ensures 1 <= |NumText(t[index + 1..])| && IsDigit(t[index + 1])
    ensures ParseInt(NumText(t[index + 1..])).value == GroupAt(t, index)
  {
    var s := t[index + 1..];
    NumTextParse(s);
    GroupAtIsValue(t, index);
    assert t[index + 1] == s[..DigitRun(s)][0];
  }

  /** When the text after a `$` parses, the characters it spans are digits. */
  lemma ParsedDigits(t: string, index: int, i: int)
    requires 0 <= index < i < |t| && i <= index + |NumText(t[index + 1..])|
    requires ParseInt(NumText(t[index + 1..])).Some?
    ensures IsDigit(t[i])
  {
    var s := t[index + 1..];
    NumTextParse(s);
    assert t[i] == s[..DigitRun(s)][i - index - 1];
  }

  /** The `$` a successful scan starts from is followed by digits whose number
      is at most the result. */
  lemma ScanFromCoversHead(t: string, index: int, acc: int, m: int)
    requires 0 <= index < |t|
    requires ScanFrom(t, index, acc) == Success(m)
    ensures HasGroupAt(t, index) && GroupAt(t, index) <= m
  {
    ScanFromNext(t, index, acc, m);
    ParsedGroup(t, index);
    ScanFromAttained(t, IndexOf(t, '$', NumberEnd(t, index)),
                     Larger(ParseInt(NumText(t[index + 1..])).value, acc), m);
  }

  /** Position `i` holds no `$`, or a `$` followed by digits whose number is at most `m`. */
  predicate Covered(t: string, i: int, m: int)
    requires 0 <= i < |t|
  {
    t[i] == '$' ==> HasGroupAt(t, i) && GroupAt(t, i) <= m
  }

  /** A successful scan from the `$` at `index` has seen every position `i`
      from there on: a `$` there is followed by digits whose number is at most
      the result. */
  lemma {:induction false} ScanFromCovers(t: string, index: int, acc: int, m: int, i: int)
    requires 0 <= index <= i < |t|
    requires ScanFrom(t, index, acc) == Success(m)
    ensures Covered(t, i, m)
    decreases |t| - index, 2
  {
    ScanFromParses(t, index, acc);
    if i == index {
      ScanFromCoversHead(t, index, acc, m);
    } else if i <= index + |NumText(t[index + 1..])| {
      ParsedDigits(t, index, i);
    } else {
      ScanFromCoversNext(t, index, acc, m, i);
    }
  }

  /** ScanFromCovers from the `$` after the one at `index`. */
  lemma {:induction false} ScanFromCoversNext(t: string, index: int, acc: int, m: int, i: int)
    requires 0 <= index < i < |t| && index + |NumText(t[index + 1..])| < i
    requires ScanFrom(t, index, acc) == Success(m)
    ensures Covered(t, i, m)
    decreases |t| - index, 1
  {
    ScanFromNext(t, index, acc, m);
    ScanFromCoversFrom(t, NumberEnd(t, index), IndexOf(t, '$', NumberEnd(t, index)),
                       Larger(ParseInt(NumText(t[index + 1..])).value, acc), m, i);
  }

  /** ScanFromCovers from `j`, the first `$` at or after `from`. */
  lemma {:induction false} ScanFromCoversFrom(t: string, from: int, j: int, acc: int, m: int, i: int)
    requires 0 <= from <= i < |t| && j == IndexOf(t, '$', from)
    requires ScanFrom(t, j, acc) == Success(m)
    ensures Covered(t, i, m)
    decreases |t| - from, 3
  {
    if j == -1 || i < j {
      IndexOfIsFirst(t, '$', from, i);
    } else {
      ScanFromCovers(t, j, acc, m, i);
    }
  }

  /** Every `$` of an accepted template is followed by digits whose number is at
      most the result, and the result is 0 or the number of one of them. */
  lemma MaxGroupSound(t: string, m: int)
    requires MaxGroup(t) == Success(m)
    ensures 0 <= m
    ensures forall i :: 0 <= i < |t| && t[i] == '$' ==> HasGroupAt(t, i) && GroupAt(t, i) <= m
    ensures m == 0 || exists i :: 0 <= i < |t| && t[i] == '$' && GroupAt(t, i) == m
  {
    ScanFromAttained(t, IndexOf(t, '$', 0), 0, m);
    forall i | 0 <= i < |t| && t[i] == '$'
      ensures HasGroupAt(t, i) && GroupAt(t, i) <= m
    {
      ScanFromCoversFrom(t, 0, IndexOf(t, '$', 0), 0, m, i);
    }
  }

  /** A `$` that is not followed by a digit (a trailing `$`, `$$`, `\$x`) makes the scan fail. */
  lemma DollarWithoutDigitFails(t: string, i: int)
    requires 0 <= i < |t| && t[i] == '$' && !HasGroupAt(t, i)
    ensures MaxGroup(t).Failure?
  {
    if MaxGroup(t).Success? {
      MaxGroupSound(t, MaxGroup(t).value);
    }
  }

  /** `$12` refers to group 12: the whole digit run is one number. */
  lemma WholeDigitRunIsOneGroup()
    ensures MaxGroup("$12") == Success(12)
  {
    var t := "$12";
    assert IndexOf(t, '$', 0) == 0;
    assert DigitRun(t[1..]) == 2;
    assert NumText(t[1..]) == "12";
    ParseDigits("12");
    assert IndexOf(t, '$', 3) == -1;
  }

  /** As written, a non-digit after the group followed later by a line terminator
      survives the replaceFirst, so parseInt fails on a valid group reference. */
  lemma LineTerminatorAfterGroupFails()
    ensures MaxGroup("$1 \n").Failure?
  {
    var t := "$1 \n";
    var s := t[1..];
    assert IndexOf(t, '$', 0) == 0;
    assert s == "1 \n";
    assert DigitRun(s[1..]) == 0 && DigitRun(s) == 1;
    assert FromLineEnd(s[2..]) == "\n";
    var num := NumText(s);
    assert num == "1\n";
    assert !IsDigit(num[1]);
    assert ParseInt(num).None?;
  }

  /** A group number beyond 32 bits makes parseInt fail. */
  lemma OverflowingGroupFails()
    ensures MaxGroup("$2147483648").Failure?
  {
    var t := "$2147483648";
    var s := t[1..];
    assert IndexOf(t, '$', 0) == 0;
    assert s == "2147483648";
    assert AllDigits(s);
    DigitRunOfDigits(s);
    assert NumText(s) == s;
    assert Value(s[..1]) == 2 by { assert s[..1][..0] == []; }
    assert Value(s[..2]) == 21 by { assert s[..2][..1] == s[..1]; }
    assert Value(s[..3]) == 214 by { assert s[..3][..2] == s[..2]; }
    assert Value(s[..4]) == 2147 by { assert s[..4][..3] == s[..3]; }
    assert Value(s[..5]) == 21474 by { assert s[..5][..4] == s[..4]; }
    assert Value(s[..6]) == 214748 by { assert s[..6][..5] == s[..5]; }
    assert Value(s[..7]) == 2147483 by { assert s[..7][..6] == s[..6]; }
    assert Value(s[..8]) == 21474836 by { assert s[..8][..7] == s[..7]; }
    assert Value(s[..9]) == 214748364 by { assert s[..9][..8] == s[..8]; }
    assert Value(s) == 2147483648 by { assert s[..10][..9] == s[..9]; assert s[..10] == s; }
    ParseDigits(s);
  }

  // ---------------------------------------------------------------------
  // Construction
  // ---------------------------------------------------------------------

  /** The constructor's verdict on a compiled pattern (None: Pattern.compile
      threw) and a template: the first exception it throws, if any. */
  function Check(compiled: Option<Regex>, outputPattern: string): Option<SpecError> {
    if compiled.None? then Some(PatternSyntax)
    else if compiled.value.rejectsOnEmpty(outputPattern) then Some(TemplateRejected)
    else match MaxGroup(outputPattern)
      case Failure(num) => Some(NumberFormat(num))
      case Success(m) => if compiled.value.groupCount < m then Some(UnknownGroup(m)) else None
  }

  /** An accepted template refers only to groups the pattern has. */
  lemma CheckAccepted(compiled: Option<Regex>, t: string)
    requires Check(compiled, t).None?
    ensures compiled.Some?
    ensures forall i :: 0 <= i < |t| && t[i] == '$' ==> HasGroupAt(t, i) && GroupAt(t, i) <= compiled.value.groupCount
  {
    MaxGroupSound(t, MaxGroup(t).value);
  }

  /** An unknown group is reported with the largest number the template uses,
      which exceeds the group count. */
  lemma CheckUnknownGroup(compiled: Option<Regex>, t: string, m: int)
    requires Check(compiled, t) == Some(UnknownGroup(m))
    ensures compiled.Some? && m > compiled.value.groupCount
    ensures exists i :: 0 <= i < |t| && t[i] == '$' && GroupAt(t, i) == m
  {
    MaxGroupSound(t, m);
  }

  /** A template without `$` never fails the group check. */
  lemma CheckWithoutDollar(compiled: Option<Regex>, t: string)
    requires compiled.Some? && !compiled.value.rejectsOnEmpty(t)
    requires forall i :: 0 <= i < |t| ==> t[i] != '$'
    ensures Check(compiled, t).None?
  {
    assert IndexOf(t, '$', 0) == -1;
  }

  // ---------------------------------------------------------------------
  // Applying lists of rules
  // ---------------------------------------------------------------------

  /** The value a rule maps `v` to. */
  function Mapped(rule: PatternMapping, v: string): string {
    rule.inputMatcher.replaceAll(v, rule.outputPattern)
  }

  /** One step of mapSingleValue: a rule that finds its pattern rewrites the value,
      any other rule leaves it alone. */
  function Step(rule: PatternMapping, v: string): string {
    if rule.inputMatcher.find(v) then Mapped(rule, v) else v
  }

  /** The rules applied in list order, each to the value the previous ones left. */
  function Chain(rules: seq<PatternMapping>, v: string): string
    decreases |rules|
  {
    if rules == [] then v else Step(rules[|rules| - 1], Chain(rules[..|rules| - 1], v))
  }

  /** What mapValues adds: in list order, each non-empty result of a rule that
      finds its pattern in the original value. */
  function Fanout(rules: seq<PatternMapping>, v: string): seq<string>
    decreases |rules|
  {
    if rules == [] then []
    else
      var last := rules[|rules| - 1];
      Fanout(rules[..|rules| - 1], v) + (if last.inputMatcher.find(v) && Mapped(last, v) != "" then [Mapped(last, v)] else [])
  }

  /** Chaining two lists is chaining the second over the first's result. */
  lemma {:induction false} ChainAppend(a: seq<PatternMapping>, b: seq<PatternMapping>, v: string)
    ensures Chain(a + b, v) == Chain(b, Chain(a, v))
    decreases |b|
  {
    if b == [] {
      assert a + b == a;
    } else {
      var b' := b[..|b| - 1];
      assert (a + b)[..|a + b| - 1] == a + b';
      ChainAppend(a, b', v);
    }
  }

  /** When no rule finds its pattern in the value, the chain leaves it unchanged. */
  lemma {:induction false} ChainUnhandled(rules: seq<PatternMapping>, v: string)
    requires forall i :: 0 <= i < |rules| ==> !rules[i].inputMatcher.find(v)
    ensures Chain(rules, v) == v
    decreases |rules|
  {
    if rules != [] {
      ChainUnhandled(rules[..|rules| - 1], v);
    }
  }

  /** The fan-out never adds an empty string, and adds exactly the non-empty
      results of the rules that find their pattern in the value. */
  lemma {:induction false} FanoutMembers(rules: seq<PatternMapping>, v: string, s: string)
    ensures s in Fanout(rules, v) <==>
      s != "" && exists i :: 0 <= i < |rules| && rules[i].inputMatcher.find(v) && Mapped(rules[i], v) == s
    decreases |rules|
  {
    if rules != [] {
      var init := rules[..|rules| - 1];
      FanoutMembers(init, v, s);
      if s in Fanout(init, v) {
        var i :| 0 <= i < |init| && init[i].inputMatcher.find(v) && Mapped(init[i], v) == s;
        assert rules[i] == init[i];
      }
      if exists i :: 0 <= i < |rules| && rules[i].inputMatcher.find(v) && Mapped(rules[i], v) == s {
        var i :| 0 <= i < |rules| && rules[i].inputMatcher.find(v) && Mapped(rules[i], v) == s;
        if i < |init| {
          assert init[i] == rules[i];
        }
      }
    }
  }

  /** Both routines depend on the rules' patterns and templates in list order,
      never on their orderIndex: Chain and Fanout do not read it, so this holds
      by construction and the induction only lines up the two lists. */
  lemma {:induction false} OrderIndexIgnored(a: seq<PatternMapping>, b: seq<PatternMapping>, v: string)
    requires |a| == |b|
    requires forall i :: 0 <= i < |a| ==> a[i].inputMatcher == b[i].inputMatcher && a[i].outputPattern == b[i].outputPattern
    ensures Chain(a, v) == Chain(b, v) && Fanout(a, v) == Fanout(b, v)
    decreases |a|
  {
    if a != [] {
      OrderIndexIgnored(a[..|a| - 1], b[..|b| - 1], v);
    }
  }

  /** The occurrence of a rule at `k` is its last one before `end`. */
  predicate LastBefore(rules: seq<PatternMapping>, k: int, end: int)
    requires 0 <= k < |rules| && end <= |rules|
  {
    forall j :: k < j < end ==> rules[j] != rules[k]
  }

  class PatternMapping {
    const inputMatcher: Regex
    const outputPattern: string
    const orderIndex: int
    /** The input the rule's shared matcher was last reset to. */
    var matcherInput: string

    constructor (inputMatcher: Regex, outputPattern: string, orderIndex: int)
      ensures this.inputMatcher == inputMatcher && this.outputPattern == outputPattern
      ensures this.orderIndex == orderIndex && matcherInput == ""
    {
      this.inputMatcher := inputMatcher;
      this.outputPattern := outputPattern;
      this.orderIndex := orderIndex;
      matcherInput := "";
    }

    /** The constructor: compiles, test-runs the template, scans it for group
        references, and builds the rule only when every check passes. */
    static method Create(compiled: Option<Regex>, outputPattern: string, orderIndex: int)
      returns (r: Result<PatternMapping, SpecError>)
      ensures match Check(compiled, outputPattern)
        case Some(e) => r == Failure(e)
        case None => && r.Success? && fresh(r.value)
                     && r.value.inputMatcher == compiled.value && r.value.outputPattern == outputPattern
                     && r.value.orderIndex == orderIndex && r.value.matcherInput == ""
    {
      if compiled.None? {
        return Failure(PatternSyntax);
      }
      if compiled.value.rejectsOnEmpty(outputPattern) {
        return Failure(TemplateRejected);
      }
      var groupMax := ScanGroups(outputPattern);
      if groupMax.Failure? {
        return Failure(NumberFormat(groupMax.error));
      }
      if compiled.value.groupCount < groupMax.value {
        return Failure(UnknownGroup(groupMax.value));
      }
      var rule := new PatternMapping(compiled.value, outputPattern, orderIndex);
      return Success(rule);
    }

    /** The constructor's loop over the `$` signs of the template. */
    static method ScanGroups(outputPattern: string) returns (r: Result<int, string>)
      ensures r == MaxGroup(outputPattern)
    {
      var index := IndexOf(outputPattern, '$', 0);
      var groupMax := 0;
      while index >= 0
        invariant -1 <= index < |outputPattern|
        invariant ScanFrom(outputPattern, index, groupMax) == MaxGroup(outputPattern)
        decreases if index < 0 then 0 else |outputPattern| - index + 1
      {
        var num := NumText(outputPattern[index + 1..]);
        var groupNum := ParseInt(num);
        if groupNum.None? {
          return Failure(num);
        }
        ScanFromStep(outputPattern, index, groupMax, groupNum.value);
        if groupNum.value > groupMax {
          groupMax := groupNum.value;
        }
        index := IndexOf(outputPattern, '$', NumberEnd(outputPattern, index));
      }
      return Success(groupMax);
    }

    function GetOrderIndex(): int {
      orderIndex
    }

    /** canHandle: resets the shared matcher to `value` and looks for the pattern. */
    method CanHandle(value: string) returns (b: bool)
      modifies this
      ensures matcherInput == value && b == inputMatcher.find(value)
    {
      matcherInput := value;
      b := inputMatcher.find(value);
    }

    /** map: rewrites whatever canHandle last saw; its own argument is not used. */
    method Map(value: string) returns (r: string)
      ensures r == inputMatcher.replaceAll(matcherInput, outputPattern)
    {
      r := inputMatcher.replaceAll(matcherInput, outputPattern);
    }
  }

  /** A collection that mapValues adds to. */
  class ValueCollection {
    var items: seq<string>

    constructor ()
      ensures items == []
    {
      items := [];
    }

    method Add(s: string)
      modifies this
      ensures items == old(items) + [s]
    {
      items := items + [s];
    }
  }

  /** mapSingleValue: the value after every rule in turn; each rule's matcher is
      left on the value it last tested. */
  method MapSingleValue(rules: seq<PatternMapping>, value: string) returns (r: string)
    modifies rules
    ensures r == Chain(rules, value)
    ensures forall k :: 0 <= k < |rules| && LastBefore(rules, k, |rules|) ==> rules[k].matcherInput == Chain(rules[..k], value)
  {
    var v := value;
    var i := 0;
    while i < |rules|
      invariant 0 <= i <= |rules|
      invariant v == Chain(rules[..i], value)
      invariant forall k :: 0 <= k < i && LastBefore(rules, k, i) ==> rules[k].matcherInput == Chain(rules[..k], value)
    {
      v := MapSingleStep(rules, i, v, value);
      i := i + 1;
    }
    assert rules[..|rules|] == rules;
    r := v;
  }

  /** One turn of mapSingleValue's loop: rule `i` tests and maybe rewrites `v`. */
  method MapSingleStep(rules: seq<PatternMapping>, i: int, v: string, ghost value: string) returns (v': string)
    requires 0 <= i < |rules| && v == Chain(rules[..i], value)
    requires forall k :: 0 <= k < i && LastBefore(rules, k, i) ==> rules[k].matcherInput == Chain(rules[..k], value)
    modifies rules[i]
    ensures v' == Chain(rules[..i + 1], value)
    ensures forall k :: 0 <= k < i + 1 && LastBefore(rules, k, i + 1) ==> rules[k].matcherInput == Chain(rules[..k], value)
  {
    var handled := rules[i].CanHandle(v);
    v' := v;
    if handled {
      v' := rules[i].Map(v);
    }
    assert rules[..i + 1][..i] == rules[..i];
    forall k | 0 <= k < i + 1 && LastBefore(rules, k, i + 1)
      ensures rules[k].matcherInput == Chain(rules[..k], value)
    {
      if k < i {
        assert rules[k] != rules[i];
        assert rules[k].matcherInput == old(rules[k].matcherInput);
      }
    }
  }

  /** mapValues: adds to `values` what the fan-out of the rules over `value` yields. */
  method MapValues(rules: seq<PatternMapping>, value: string, values: ValueCollection)
    modifies rules, values
    ensures values.items == old(values.items) + Fanout(rules, value)
    ensures forall k :: 0 <= k < |rules| ==> rules[k].matcherInput == value
  {
    var i := 0;
    while i < |rules|
      invariant 0 <= i <= |rules|
      invariant values.items == old(values.items) + Fanout(rules[..i], value)
      invariant forall k :: 0 <= k < i ==> rules[k].matcherInput == value
    {
      assert rules[..i + 1][..i] == rules[..i];
      var handled := rules[i].CanHandle(value);
      if handled {
        var mappedValue := rules[i].Map(value);
        if |mappedValue| != 0 {
          values.Add(mappedValue);
        }
      }
      i := i + 1;
    }
    assert rules[..|rules|] == rules;
  }
}

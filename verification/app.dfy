/** The web front end's plan handling (Sources/App.swift), without the web framework:
    the text format of a plan's environment (one `KEY=VALUE` per line), the form
    checks of the create and edit handlers, and the list edits they make to the
    scheduler's plans. Every handler is a function from the scheduler to either the
    new scheduler or the error it throws; only `plans` ever changes.

    Form fields are a map from field name to text; a missing field is a missing
    entry. Whether `URL(string:)` accepts a text is the parameter `urlParses`. An
    index out of range traps in the source and is the error `OutOfBounds` here. */
module App {
  import opened SwiftCore
  import opened Repositories
  import opened Scheduling

  // ---------------------------------------------------------------------------
  // `split(separator:)` and `joined(separator:)`
  // ---------------------------------------------------------------------------

  /** The length of the longest prefix of `s` that does not contain `sep`. */
  function RunLength(s: string, sep: char): (k: nat)
    ensures k <= |s|
    ensures forall i :: 0 <= i < k ==> s[i] != sep
    ensures k == |s| || s[k] == sep
  {
    if |s| == 0 || s[0] == sep then 0 else 1 + RunLength(s[1..], sep)
  }

  /** `s.split(separator: sep)` with its defaults: the maximal runs of characters
      other than `sep`, in order, with empty runs omitted. */
  function Split(s: string, sep: char): (r: seq<string>)
    ensures |r| <= |s|
    ensures forall i :: 0 <= i < |r| ==> |r[i]| > 0 && sep !in r[i]
    ensures forall i :: 0 <= i < |r| ==> forall c :: c in r[i] ==> c in s
    decreases |s|
  {
    if |s| == 0 then []
    else if s[0] == sep then Split(s[1..], sep)
    else
      var k := RunLength(s, sep);
      var rest := Split(s[k..], sep);
      assert forall c :: c in s[..k] ==> c in s;
      assert forall c :: c in s[k..] ==> c in s;
      [s[..k]] + rest
  }

  /** `pieces.joined(separator: String(sep))` */
  function Join(pieces: seq<string>, sep: char): string
  {
    if |pieces| == 0 then ""
    else if |pieces| == 1 then pieces[0]
    else pieces[0] + [sep] + Join(pieces[1..], sep)
  }

  /** A run ends where the separator starts. */
  lemma RunLengthOfPiece(piece: string, tail: string, sep: char)
    requires sep !in piece
    requires |tail| == 0 || tail[0] == sep
    ensures RunLength(piece + tail, sep) == |piece|
  {
    var s := piece + tail;
    assert forall i :: 0 <= i < |piece| ==> s[i] == piece[i];
    assert |tail| > 0 ==> s[|piece|] == sep;
  }

  /** Splitting undoes joining, as long as no piece is empty or holds the separator. */
  lemma {:induction false} SplitJoin(pieces: seq<string>, sep: char)
    requires forall i :: 0 <= i < |pieces| ==> |pieces[i]| > 0 && sep !in pieces[i]
    ensures Split(Join(pieces, sep), sep) == pieces
    decreases |pieces|
  {
    if |pieces| == 1 {
      var p := pieces[0];
      RunLengthOfPiece(p, [], sep);
      assert p + [] == p;
      assert p[|p|..] == [];
      assert p[..|p|] == p;
    } else if |pieces| > 1 {
      var p := pieces[0];
      var rest := Join(pieces[1..], sep);
      var s := p + [sep] + rest;
      SplitJoin(pieces[1..], sep);
      RunLengthOfPiece(p, [sep] + rest, sep);
      assert s == p + ([sep] + rest);
      assert s[0] == p[0];
      assert s[..|p|] == p;
      assert s[|p|..] == [sep] + rest;
      assert ([sep] + rest)[1..] == rest;
    }
  }

  /** The three properties of `RunLength` determine it. */
  lemma {:induction false} RunLengthIsFirstSeparator(s: string, sep: char, k: nat)
    requires k <= |s|
    requires forall i :: 0 <= i < k ==> s[i] != sep
    requires k == |s| || s[k] == sep
    ensures RunLength(s, sep) == k
  {
    if |s| > 0 && s[0] != sep {
      RunLengthIsFirstSeparator(s[1..], sep, k - 1);
    }
  }

  /** Appending text does not move a run's end once a separator ends it. */
  lemma RunLengthOfExtension(a: string, t: string, sep: char)
    requires RunLength(a, sep) < |a| || (|t| > 0 && t[0] == sep)
    ensures RunLength(a + t, sep) == RunLength(a, sep)
  {
    var k := RunLength(a, sep);
    var s := a + t;
    assert forall i :: 0 <= i < k ==> s[i] == a[i];
    if k < |a| {
      assert s[k] == a[k];
    } else {
      assert s[k] == t[0];
    }
    RunLengthIsFirstSeparator(s, sep, k);
  }

  /** A separator splits the text in two: splitting is a homomorphism from
      concatenation with a separator to concatenation of pieces. */
  lemma {:induction false} SplitAtSeparator(a: string, b: string, sep: char)
    ensures Split(a + [sep] + b, sep) == Split(a, sep) + Split(b, sep)
    decreases |a|
  {
    var s := a + [sep] + b;
    if |a| == 0 {
      assert s == [sep] + b;
      assert s[1..] == b;
    } else if a[0] == sep {
      assert s[0] == sep;
      assert s[1..] == a[1..] + [sep] + b;
      SplitAtSeparator(a[1..], b, sep);
    } else {
      var k := RunLength(a, sep);
      RunLengthOfExtension(a, [sep] + b, sep);
      assert s == a + ([sep] + b);
      assert s[0] == a[0];
      assert s[..k] == a[..k];
      assert s[k..] == a[k..] + [sep] + b;
      SplitAtSeparator(a[k..], b, sep);
    }
  }

  /** Leading separators are ignored. */
  lemma SplitLeadingSeparator(s: string, sep: char)
    ensures Split([sep] + s, sep) == Split(s, sep)
  {
    SplitAtSeparator([], s, sep);
    assert [] + [sep] + s == [sep] + s;
  }

  /** Trailing separators are ignored. */
  lemma SplitTrailingSeparator(s: string, sep: char)
    ensures Split(s + [sep], sep) == Split(s, sep)
  {
    SplitAtSeparator(s, [], sep);
    assert s + [sep] + [] == s + [sep];
    assert Split([], sep) == [];
  }

  // ---------------------------------------------------------------------------
  // The environment text
  // ---------------------------------------------------------------------------

  /** A key or value that survives the text format: not empty, without `=` or a line break. */
  predicate IsToken(t: string)
  {
    |t| > 0 && '=' !in t && '\n' !in t
  }

  /** One line of the environment text: a pair exactly when the line splits at `=`
      into two pieces. Runs of `=` count as one separator, and a line with a further
      `=` or with nothing on one side is dropped. */
  function ParseLine(line: string): (r: Optional<(string, string)>)
    ensures '\n' !in line && r.Some? ==> IsToken(r.value.0) && IsToken(r.value.1)
  {
    var pair := Split(line, '=');
    if |pair| == 2 then Some((pair[0], pair[1])) else None
  }

  /** A line written as `key=value` reads back as that pair. */
  lemma ParseLineOfPair(key: string, value: string)
    requires IsToken(key) && IsToken(value)
    ensures ParseLine(key + "=" + value) == Some((key, value))
  {
    assert Join([key, value], '=') == key + "=" + value;
    SplitJoin([key, value], '=');
  }

  /** `lines.flatMap { ... }`: the pairs of the lines that parse, in order. */
  function ParsePairs(lines: seq<string>): (r: seq<(string, string)>)
    ensures |r| <= |lines|
    ensures (forall i :: 0 <= i < |lines| ==> '\n' !in lines[i]) ==>
      forall i :: 0 <= i < |r| ==> IsToken(r[i].0) && IsToken(r[i].1)
  {
    if |lines| == 0 then []
    else
      var rest := ParsePairs(lines[1..]);
      assert (forall i :: 0 <= i < |lines| ==> '\n' !in lines[i]) ==>
        forall i :: 0 <= i < |lines| - 1 ==> '\n' !in lines[1..][i];
      match ParseLine(lines[0])
      case Some(p) => [p] + rest
      case None => rest
  }

  /** Parsing is line by line: the pairs of two blocks of lines are the pairs of the
      first followed by those of the second. */
  lemma {:induction false} ParsePairsAppend(a: seq<string>, b: seq<string>)
    ensures ParsePairs(a + b) == ParsePairs(a) + ParsePairs(b)
  {
    if |a| == 0 {
      assert a + b == b;
    } else {
      assert (a + b)[0] == a[0];
      assert (a + b)[1..] == a[1..] + b;
      ParsePairsAppend(a[1..], b);
    }
  }

  /** A single line contributes its pair when it parses and nothing otherwise; with
      `ParsePairsAppend` this determines the pairs of every text. */
  lemma ParsePairsOfOne(line: string)
    ensures ParseLine(line).Some? ==> ParsePairs([line]) == [ParseLine(line).value]
    ensures ParseLine(line).None? ==> ParsePairs([line]) == []
  {
    assert [line][1..] == [];
  }

  /** When every line parses, the pairs are the lines' pairs. */
  lemma {:induction false} ParsePairsAllParse(lines: seq<string>, pairs: seq<(string, string)>)
    requires |lines| == |pairs|
    requires forall i :: 0 <= i < |lines| ==> ParseLine(lines[i]) == Some(pairs[i])
    ensures ParsePairs(lines) == pairs
  {
    if |lines| > 0 {
      ParsePairsAllParse(lines[1..], pairs[1..]);
      assert ParseLine(lines[0]) == Some(pairs[0]);
      assert pairs == [pairs[0]] + pairs[1..];
    }
  }

  /** `Dictionary(pairs, uniquingKeysWith: { first, _ in first })`: every key of a
      pair is present, and it maps to the value of its first pair. */
  function Dictionary(pairs: seq<(string, string)>): (r: map<string, string>)
    ensures forall k :: k in r <==> exists i :: 0 <= i < |pairs| && pairs[i].0 == k
    ensures forall i :: 0 <= i < |pairs| && (forall j :: 0 <= j < i ==> pairs[j].0 != pairs[i].0) ==>
      r[pairs[i].0] == pairs[i].1
  {
    if |pairs| == 0 then map[]
    else
      var rest := Dictionary(pairs[1..]);
      assert forall i :: 1 <= i < |pairs| ==> pairs[1..][i - 1] == pairs[i];
      rest[pairs[0].0 := pairs[0].1]
  }

  /** Parsing the environment text of the create and edit forms: split into lines,
      parse each, and keep the first value of every key. */
  function ParseEnvironment(text: string): (env: map<string, string>)
    ensures forall k :: k in env ==> IsToken(k) && IsToken(env[k])
  {
    var lines := Split(text, '\n');
    var pairs := ParsePairs(lines);
    var env := Dictionary(pairs);
    assert forall k :: k in env ==> IsToken(k) && IsToken(env[k]) by {
      forall k | k in env
        ensures IsToken(k) && IsToken(env[k])
      {
        var i :| 0 <= i < |pairs| && pairs[i].0 == k;
        FirstOccurrence(pairs, k, i);
        var first :| 0 <= first <= i && pairs[first].0 == k
                     && forall j :: 0 <= j < first ==> pairs[j].0 != k;
      }
    }
    env
  }

  /** A key that occurs in a sequence of pairs has a first occurrence. */
  lemma {:induction false} FirstOccurrence(pairs: seq<(string, string)>, k: string, i: nat)
    requires i < |pairs| && pairs[i].0 == k
    ensures exists first :: 0 <= first <= i && pairs[first].0 == k
                            && forall j :: 0 <= j < first ==> pairs[j].0 != k
    decreases i
  {
    if exists j :: 0 <= j < i && pairs[j].0 == k {
      var j :| 0 <= j < i && pairs[j].0 == k;
      FirstOccurrence(pairs, k, j);
    } else {
      assert forall j :: 0 <= j < i ==> pairs[j].0 != k;
    }
  }

  /** `order` lists every key of `env` exactly once: the iteration order of a
      dictionary, which the source leaves unspecified. */
  ghost predicate IsKeyOrder(order: seq<string>, env: map<string, string>)
  {
    && (forall i, j :: 0 <= i < j < |order| ==> order[i] != order[j])
    && (forall k :: k in env <==> k in order)
  }

  /** `environment.map { "\($0)=\($1)" }` in the order `order`. */
  function Lines(env: map<string, string>, order: seq<string>): (r: seq<string>)
    requires forall i :: 0 <= i < |order| ==> order[i] in env
    ensures |r| == |order|
    ensures forall i :: 0 <= i < |order| ==> r[i] == order[i] + "=" + env[order[i]]
  {
    if |order| == 0 then [] else [order[0] + "=" + env[order[0]]] + Lines(env, order[1..])
  }

  /** The environment text the edit page shows: one `KEY=VALUE` line per entry. */
  function SerializeEnvironment(env: map<string, string>, order: seq<string>): string
    requires IsKeyOrder(order, env)
  {
    Join(Lines(env, order), '\n')
  }

  /** The entries of `env` in the order `order`. */
  function Entries(env: map<string, string>, order: seq<string>): (r: seq<(string, string)>)
    requires forall i :: 0 <= i < |order| ==> order[i] in env
    ensures |r| == |order|
    ensures forall i :: 0 <= i < |order| ==> r[i] == (order[i], env[order[i]])
  {
    if |order| == 0 then [] else [(order[0], env[order[0]])] + Entries(env, order[1..])
  }

  /** The written lines are exactly the lines the parser sees, and each parses to its entry. */
  lemma LinesReadBack(env: map<string, string>, order: seq<string>)
    requires IsKeyOrder(order, env)
    requires forall k :: k in env ==> IsToken(k) && IsToken(env[k])
    ensures ParsePairs(Split(SerializeEnvironment(env, order), '\n')) == Entries(env, order)
  {
    var lines := Lines(env, order);
    forall i | 0 <= i < |lines|
      ensures |lines[i]| > 0 && '\n' !in lines[i]
    {
      assert lines[i] == order[i] + "=" + env[order[i]];
    }
    SplitJoin(lines, '\n');
    var pairs := Entries(env, order);
    forall i | 0 <= i < |lines|
      ensures ParseLine(lines[i]) == Some(pairs[i])
    {
      ParseLineOfPair(order[i], env[order[i]]);
    }
    ParsePairsAllParse(lines, pairs);
  }

  /** The value `Dictionary` keeps for the key of a first occurrence. */
  lemma DictionaryAtFirst(pairs: seq<(string, string)>, i: nat)
    requires i < |pairs|
    requires forall j :: 0 <= j < i ==> pairs[j].0 != pairs[i].0
    ensures pairs[i].0 in Dictionary(pairs) && Dictionary(pairs)[pairs[i].0] == pairs[i].1
  {
  }

  /** Collecting the entries of a key order gives back the map. */
  lemma DictionaryOfEntries(env: map<string, string>, order: seq<string>)
    requires IsKeyOrder(order, env)
    ensures Dictionary(Entries(env, order)) == env
  {
    var pairs := Entries(env, order);
    var d := Dictionary(pairs);
    assert d.Keys == env.Keys by {
      DictionaryKeysOfEntries(env, order);
    }
    forall k | k in env
      ensures d[k] == env[k]
    {
      var i :| 0 <= i < |order| && order[i] == k;
      EntryIsFirst(env, order, i);
    }
  }

  /** In the entries of a key order every entry is the first with its key, so
      `Dictionary` keeps its value. */
  lemma EntryIsFirst(env: map<string, string>, order: seq<string>, i: nat)
    requires IsKeyOrder(order, env) && i < |order|
    ensures Dictionary(Entries(env, order))[order[i]] == env[order[i]]
  {
    var pairs := Entries(env, order);
    forall j | 0 <= j < i
      ensures pairs[j].0 != pairs[i].0
    {
      assert order[j] != order[i];
    }
    DictionaryAtFirst(pairs, i);
  }

  lemma DictionaryKeysOfEntries(env: map<string, string>, order: seq<string>)
    requires IsKeyOrder(order, env)
    ensures Dictionary(Entries(env, order)).Keys == env.Keys
  {
    var pairs := Entries(env, order);
    var d := Dictionary(pairs);
    forall k | k in env
      ensures k in d
    {
      var i :| 0 <= i < |order| && order[i] == k;
      assert pairs[i].0 == k;
    }
    forall k | k in d
      ensures k in env
    {
      var i :| 0 <= i < |pairs| && pairs[i].0 == k;
      assert order[i] == k;
    }
  }

  /** An environment whose keys and values are tokens reads back from its text
      unchanged, whatever order the entries are written in. */
  lemma EnvironmentRoundTrip(env: map<string, string>, order: seq<string>)
    requires IsKeyOrder(order, env)
    requires forall k :: k in env ==> IsToken(k) && IsToken(env[k])
    ensures ParseEnvironment(SerializeEnvironment(env, order)) == env
  {
    LinesReadBack(env, order);
    DictionaryOfEntries(env, order);
  }

  /** Text that was parsed once is stable: showing a parsed environment and parsing
      the shown text gives the same environment. */
  lemma ParsedEnvironmentIsStable(text: string, order: seq<string>)
    requires IsKeyOrder(order, ParseEnvironment(text))
    ensures ParseEnvironment(SerializeEnvironment(ParseEnvironment(text), order)) == ParseEnvironment(text)
  {
    EnvironmentRoundTrip(ParseEnvironment(text), order);
  }

  /** A value that itself contains `=` is lost: its whole line is dropped. */
  lemma ValueWithEqualsIsDropped(text: string)
    requires text == "A=b=c"
    ensures ParseEnvironment(text) == map[]
  {
    var pieces := Split(text, '=');
    assert Join(["A", "b", "c"], '=') == text;
    SplitJoin(["A", "b", "c"], '=');
    assert Split(text, '\n') == [text] by {
      assert Join([text], '\n') == text;
      SplitJoin([text], '\n');
    }
    assert ParseLine(text) == None;
    assert ParsePairs([text]) == [];
  }

  /** A run of `=` counts as a single separator, so the doubled `=` is not part of
      the value. */
  lemma RepeatedEqualsCollapse(text: string)
    requires text == "A==b"
    ensures ParseEnvironment(text) == map["A" := "b"]
  {
    assert RunLength(text, '=') == 1;
    assert text[1..] == "==b" && text[1..][1..] == "=b" && text[1..][1..][1..] == "b";
    assert Split("b", '=') == ["b"] by {
      SplitJoin(["b"], '=');
    }
    assert text[..1] == "A";
    assert Split("=b", '=') == Split("b", '=');
    assert Split("==b", '=') == Split("=b", '=');
    assert Split(text, '=') == ["A"] + Split(text[1..], '=');
    assert Split(text, '=') == ["A", "b"];
    assert Split(text, '\n') == [text] by {
      SplitJoin([text], '\n');
    }
    assert ParsePairs([text]) == [("A", "b")];
  }

  // ---------------------------------------------------------------------------
  // The handlers
  // ---------------------------------------------------------------------------

  /** `Abort.badRequest`, and the trap of an index out of range. */
  datatype AppError = BadRequest | OutOfBounds

  /** The form checks of `postPlan` and `updatePlan`: every field is present, and the
      repository, launch and build texts are URLs. */
  predicate Accepts(form: map<string, string>, urlParses: string -> bool)
  {
    && "name" in form && "branch" in form && "environment" in form
    && "repositoryURL" in form && urlParses(form["repositoryURL"])
    && "launch" in form && urlParses(form["launch"])
    && "build" in form && urlParses(form["build"])
  }

  /** The plan both handlers build from a form. The `launch` text becomes the build
      script and the `build` text the launch script; the plan is not yet checked out. */
  function PlanFromForm(form: map<string, string>, urlParses: string -> bool): (r: Throwing<Plan, AppError>)
    ensures r.Returned? <==> Accepts(form, urlParses)
    ensures r.Threw? ==> r.error == BadRequest
    ensures r.Returned? ==>
      && r.value.name == form["name"]
      && r.value.repository == Repository(form["repositoryURL"], form["branch"])
      && r.value.build == Script(form["launch"])
      && r.value.launch == Script(form["build"])
      && r.value.environment == ParseEnvironment(form["environment"])
      && r.value.head == NotYetCheckedOut
  {
    if "name" !in form then Threw(BadRequest)
    else if "repositoryURL" !in form || !urlParses(form["repositoryURL"]) then Threw(BadRequest)
    else if "branch" !in form then Threw(BadRequest)
    else if "launch" !in form || !urlParses(form["launch"]) then Threw(BadRequest)
    else if "build" !in form || !urlParses(form["build"]) then Threw(BadRequest)
    else if "environment" !in form then Threw(BadRequest)
    else
      var repository := NewRepository(form["repositoryURL"], Some(form["branch"]));
      Returned(NewPlan(form["name"], repository, Script(form["launch"]), Script(form["build"]),
                       ParseEnvironment(form["environment"])))
  }

  /** `index`: the names of the plans, in order. */
  function PlanNames(s: Scheduler): (r: seq<string>)
    ensures |r| == |s.plans|
    ensures forall i :: 0 <= i < |r| ==> r[i] == s.plans[i].name
  {
    seq(|s.plans|, i requires 0 <= i < |s.plans| => s.plans[i].name)
  }

  /** `postPlan`: append the plan built from the form. */
  function PostPlan(s: Scheduler, form: map<string, string>, urlParses: string -> bool): (r: Throwing<Scheduler, AppError>)
    ensures r.Returned? <==> Accepts(form, urlParses)
    ensures r.Threw? ==> r.error == BadRequest
    ensures r.Returned? ==>
      && r.value.(plans := s.plans) == s
      && |r.value.plans| == |s.plans| + 1
      && r.value.plans[..|s.plans|] == s.plans
      && r.value.plans[|s.plans|] == PlanFromForm(form, urlParses).value
  {
    match PlanFromForm(form, urlParses)
    case Threw(e) => Threw(e)
    case Returned(p) => Returned(s.(plans := s.plans + [p]))
  }

  /** `updatePlan`: replace the plan at `index` by the one built from the form. The
      form is checked before the index is used. */
  function UpdatePlan(s: Scheduler, index: int, form: map<string, string>, urlParses: string -> bool)
    : (r: Throwing<Scheduler, AppError>)
    ensures !Accepts(form, urlParses) ==> r == Threw(BadRequest)
    ensures Accepts(form, urlParses) && !(0 <= index < |s.plans|) ==> r == Threw(OutOfBounds)
    ensures Accepts(form, urlParses) && 0 <= index < |s.plans| ==> r.Returned?
    ensures r.Returned? ==>
      && 0 <= index < |s.plans|
      && r.value.(plans := s.plans) == s
      && |r.value.plans| == |s.plans|
      && r.value.plans[index] == PlanFromForm(form, urlParses).value
      && forall i :: 0 <= i < |s.plans| && i != index ==> r.value.plans[i] == s.plans[i]
  {
    match PlanFromForm(form, urlParses)
    case Threw(e) => Threw(e)
    case Returned(p) =>
      if 0 <= index < |s.plans| then Returned(s.(plans := s.plans[index := p]))
      else Threw(OutOfBounds)
  }

  /** `deletePlan`: remove the plan at `index`, keeping the others in order. */
  function DeletePlan(s: Scheduler, index: int): (r: Throwing<Scheduler, AppError>)
    ensures r.Threw? <==> !(0 <= index < |s.plans|)
    ensures r.Threw? ==> r.error == OutOfBounds
    ensures r.Returned? ==>
      && r.value.(plans := s.plans) == s
      && |r.value.plans| == |s.plans| - 1
      && (forall i :: 0 <= i < index ==> r.value.plans[i] == s.plans[i])
      && (forall i :: index <= i < |r.value.plans| ==> r.value.plans[i] == s.plans[i + 1])
  {
    if 0 <= index < |s.plans| then Returned(s.(plans := s.plans[..index] + s.plans[index + 1..]))
    else Threw(OutOfBounds)
  }

  /** What the edit page shows of a plan. */
  datatype PlanView = PlanView(
    index: int,
    name: string,
    repositoryURL: string,
    branch: string,
    launch: string,
    build: string,
    environment: string)

  /** `getPlan`: the edit page of the plan at `index`, its entries listed in `order`. */
  function GetPlan(s: Scheduler, index: int, order: seq<string>): (r: Throwing<PlanView, AppError>)
    requires 0 <= index < |s.plans| ==> IsKeyOrder(order, s.plans[index].environment)
    ensures r.Threw? <==> !(0 <= index < |s.plans|)
    ensures r.Threw? ==> r.error == OutOfBounds
    ensures r.Returned? ==>
      var p := s.plans[index];
      && r.value.index == index && r.value.name == p.name
      && r.value.repositoryURL == p.repository.url && r.value.branch == p.repository.branch
      && r.value.launch == p.launch.url && r.value.build == p.build.url
      && r.value.environment == SerializeEnvironment(p.environment, order)
  {
    if 0 <= index < |s.plans| then
      var p := s.plans[index];
      var text := SerializeEnvironment(p.environment, order);
      Returned(PlanView(index, p.name, p.repository.url, p.repository.branch,
                        p.launch.url, p.build.url, text))
    else Threw(OutOfBounds)
  }

  /** The form the edit page submits when nothing on it is changed: each field
      sends back the value shown under the same name. The edit template is not part
      of this model; it is assumed to name its inputs after the view's keys, which
      are the keys `PlanFromForm` reads. */
  function FormOf(v: PlanView): (form: map<string, string>)
    ensures form.Keys == {"name", "repositoryURL", "branch", "launch", "build", "environment"}
    ensures form["name"] == v.name && form["repositoryURL"] == v.repositoryURL
    ensures form["branch"] == v.branch && form["environment"] == v.environment
    ensures form["launch"] == v.launch && form["build"] == v.build
  {
    map["name" := v.name, "repositoryURL" := v.repositoryURL, "branch" := v.branch,
        "launch" := v.launch, "build" := v.build, "environment" := v.environment]
  }

  /** A created plan, opened on its edit page, shows the build text in the launch
      field and the launch text in the build field; its environment shows as text
      that parses back to the created environment. */
  lemma PostThenGetSwapsScripts(s: Scheduler, form: map<string, string>, urlParses: string -> bool, order: seq<string>)
    requires Accepts(form, urlParses)
    requires IsKeyOrder(order, ParseEnvironment(form["environment"]))
    ensures var v := GetPlan(PostPlan(s, form, urlParses).value, |s.plans|, order);
      && v.Returned?
      && v.value.name == form["name"]
      && v.value.repositoryURL == form["repositoryURL"] && v.value.branch == form["branch"]
      && v.value.launch == form["build"] && v.value.build == form["launch"]
      && ParseEnvironment(v.value.environment) == ParseEnvironment(form["environment"])
  {
    var posted := PostPlan(s, form, urlParses).value;
    assert posted.plans[|s.plans|].environment == ParseEnvironment(form["environment"]);
    ParsedEnvironmentIsStable(form["environment"], order);
  }

  /** Opening a plan's edit page and saving it unchanged swaps its build and launch
      scripts and forgets its checked-out commit; nothing else about the plan or the
      other plans changes. */
  lemma ResubmitSwapsScripts(s: Scheduler, index: int, order: seq<string>, urlParses: string -> bool)
    requires 0 <= index < |s.plans|
    requires IsKeyOrder(order, s.plans[index].environment)
    requires forall k :: k in s.plans[index].environment ==>
      IsToken(k) && IsToken(s.plans[index].environment[k])
    requires urlParses(s.plans[index].repository.url)
    requires urlParses(s.plans[index].launch.url) && urlParses(s.plans[index].build.url)
    ensures var r := UpdatePlan(s, index, FormOf(GetPlan(s, index, order).value), urlParses);
      var p := s.plans[index];
      && r.Returned?
      && r.value.plans == s.plans[index := p.(head := NotYetCheckedOut, build := p.launch, launch := p.build)]
  {
    var p := s.plans[index];
    var v := GetPlan(s, index, order).value;
    EnvironmentRoundTrip(p.environment, order);
    var form := FormOf(v);
    assert Accepts(form, urlParses);
    var q := PlanFromForm(form, urlParses).value;
    assert q == p.(head := NotYetCheckedOut, build := p.launch, launch := p.build);
  }

  /** Deleting the plan just created restores the scheduler. */
  lemma DeleteAfterPostRestores(s: Scheduler, form: map<string, string>, urlParses: string -> bool)
    requires Accepts(form, urlParses)
    ensures DeletePlan(PostPlan(s, form, urlParses).value, |s.plans|) == Returned(s)
  {
    var posted := PostPlan(s, form, urlParses).value;
    assert posted.plans[..|s.plans|] + posted.plans[|s.plans| + 1..] == s.plans;
  }

  /** A created plan is listed last on the index page, under its form name. */
  lemma PostedPlanIsListedLast(s: Scheduler, form: map<string, string>, urlParses: string -> bool)
    requires Accepts(form, urlParses)
    ensures PlanNames(PostPlan(s, form, urlParses).value) == PlanNames(s) + [form["name"]]
  {
  }
}

/** The parser of configuration strings: keys and quoted values, in which quotes and backslashes are escaped. */
module ConfigParser {

  predicate IsSpace(c: char) {
    c == ' ' || 9 <= c as int <= 13
  }

  predicate Spaces(s: string) {
    forall i :: 0 <= i < |s| ==> IsSpace(s[i])
  }

  /** Not empty, without spaces and without `=`. */
  predicate IsKey(s: string) {
    s != "" && forall i :: 0 <= i < |s| ==> KeyChar(s[i])
  }

  predicate KeyChar(c: char) {
    !IsSpace(c) && c != '='
  }

  // ---------- what is parsed ----------

  /** A binding with the spaces before it, after its key and after its equals sign. */
  datatype Binding = Binding(before: string, key: string, between: string, after: string, value: string)

  ghost predicate ValidBinding(b: Binding) {
    Spaces(b.before) && IsKey(b.key) && Spaces(b.between) && Spaces(b.after)
  }

  function Escape(value: string): string {
    if value == "" then ""
    else
      var c := value[|value| - 1];
      Escape(value[..|value| - 1]) + if c == '"' || c == '\\' then ['\\', c] else [c]
  }

  function Print(b: Binding): string {
    b.before + b.key + b.between + "=" + b.after + "\"" + Escape(b.value) + "\""
  }

  function PrintAll(bs: seq<Binding>): string {
    if bs == [] then "" else PrintAll(bs[..|bs| - 1]) + Print(bs[|bs| - 1])
  }

  ghost predicate ValidBindings(bs: seq<Binding>) {
    forall i :: 0 <= i < |bs| ==> ValidBinding(bs[i])
  }

  type Config = map<string, string>

  /** Each key with its last value. */
  function Bound(start: Config, bs: seq<Binding>): Config {
    if bs == [] then start else Bound(start, bs[..|bs| - 1])[bs[|bs| - 1].key := bs[|bs| - 1].value]
  }

  // ---------- the automaton ----------

  datatype Phase = Init | ReadingKey | ReadingKeyDone | ReadingLq | ReadingVal | ReadingEsc

  datatype State = Failed | Reading(phase: Phase, key: string, value: string, dst: Config)

  function Step(st: State, c: char): State {
    match st
    case Failed => Failed
    case Reading(phase, key, value, dst) =>
      match phase
      case Init => if IsSpace(c) then st else StepKey(key, value, dst, c)
      case ReadingKey => StepKey(key, value, dst, c)
      case ReadingKeyDone =>
        if IsSpace(c) then st else if c == '=' then Reading(ReadingLq, key, value, dst) else Failed
      case ReadingLq =>
        if IsSpace(c) then st else if c == '"' then Reading(ReadingVal, key, value, dst) else Failed
      case ReadingVal =>
        if c == '"' then Reading(Init, "", "", dst[key := value])
        else if c == '\\' then Reading(ReadingEsc, key, value, dst)
        else Reading(ReadingVal, key, value + [c], dst)
      case ReadingEsc =>
        if c == '"' || c == '\\' then Reading(ReadingVal, key, value + [c], dst) else Failed
  }

  function StepKey(key: string, value: string, dst: Config, c: char): State {
    if key == "" && (c == '=' || IsSpace(c)) then Failed
    else if IsSpace(c) then Reading(ReadingKeyDone, key, value, dst)
    else if c == '=' then Reading(ReadingLq, key, value, dst)
    else Reading(ReadingKey, key + [c], value, dst)
  }

  function Run(st: State, s: string): State {
    if s == "" then st else Step(Run(st, s[..|s| - 1]), s[|s| - 1])
  }

  function Start(dst: Config): State {
    Reading(Init, "", "", dst)
  }

  predicate Accepts(st: State) {
    st.Reading? && st.key == "" && st.value == ""
  }

  method ParseConfigString(dst0: Config, s: string) returns (ok: bool, dst: Config)
    ensures ok == Accepts(Run(Start(dst0), s))
    ensures ok ==> dst == Run(Start(dst0), s).dst
  {
    dst := dst0;
    var state, key, value := Init, "", "";
    for i := 0 to |s|
      invariant Run(Start(dst0), s[..i]) == Reading(state, key, value, dst)
    {
      assert s[..i + 1][..i] == s[..i];
      ghost var st := Reading(state, key, value, dst);
      var c := s[i];
      if i < |s| {
        assert s[..i + 1][i] == c;
      }
      match state {
        case Init | ReadingKey =>
          if state == Init && IsSpace(c) {
            continue;
          }
          state := ReadingKey;
          if key == "" && (c == '=' || IsSpace(c)) {
            FailsForGood(Start(dst0), s, i + 1);
            return false, dst;
          }
          if IsSpace(c) {
            state := ReadingKeyDone;
          } else if c == '=' {
            state := ReadingLq;
          } else {
            key := key + [c];
          }
        case ReadingKeyDone =>
          if IsSpace(c) {
            continue;
          }
          if c == '=' {
            state := ReadingLq;
          } else {
            FailsForGood(Start(dst0), s, i + 1);
            return false, dst;
          }
        case ReadingLq =>
          if IsSpace(c) {
            continue;
          }
          if c == '"' {
            state := ReadingVal;
          } else {
            FailsForGood(Start(dst0), s, i + 1);
            return false, dst;
          }
        case ReadingVal =>
          if c == '"' {
            dst := dst[key := value];
            key, value, state := "", "", Init;
          } else if c == '\\' {
            state := ReadingEsc;
          } else {
            value := value + [c];
          }
        case ReadingEsc =>
          if c == '"' {
            value := value + ['"'];
          } else if c == '\\' {
            value := value + ['\\'];
          } else {
            FailsForGood(Start(dst0), s, i + 1);
            return false, dst;
          }
          state := ReadingVal;
      }
    }
    assert s[..|s|] == s;
    ok := key == "" && value == "";
  }

  lemma {:induction false} FailsForGood(st: State, s: string, i: nat)
    requires i <= |s| && Run(st, s[..i]) == Failed
    ensures Run(st, s) == Failed
    decreases |s|
  {
    if i < |s| {
      assert s[..|s| - 1][..i] == s[..i];
      FailsForGood(st, s[..|s| - 1], i);
    } else {
      assert s[..i] == s;
    }
  }

  lemma {:induction false} RunJoin(st: State, s: string, t: string)
    ensures Run(st, s + t) == Run(Run(st, s), t)
    decreases |t|
  {
    if t == "" {
      assert s + t == s;
    } else {
      RunJoin(st, s, t[..|t| - 1]);
      assert (s + t)[..|s + t| - 1] == s + t[..|t| - 1];
    }
  }

  // ---------- what is printed is parsed ----------

  lemma {:induction false} RunSpaces(st: State, s: string)
    requires Spaces(s) && st.Reading? && st.phase in {Init, ReadingKeyDone, ReadingLq}
    ensures Run(st, s) == st
    decreases |s|
  {
    if s != "" {
      RunSpaces(st, s[..|s| - 1]);
    }
  }

  lemma {:induction false} RunKey(dst: Config, s: string)
    requires IsKey(s)
    ensures Run(Start(dst), s) == Reading(ReadingKey, s, "", dst)
    decreases |s|
  {
    var n := |s| - 1;
    assert KeyChar(s[n]);
    if n == 0 {
      assert s[..n] == "" && s == [s[n]];
      assert Run(Start(dst), s[..n]) == Start(dst);
    } else {
      RunKey(dst, s[..n]);
      assert s == s[..n] + [s[n]];
    }
  }

  /** After a key, spaces or none, and the equals sign. */
  lemma RunEquals(dst: Config, key: string, between: string)
    requires IsKey(key) && Spaces(between)
    ensures Run(Reading(ReadingKey, key, "", dst), between + "=") == Reading(ReadingLq, key, "", dst)
    ensures Run(Reading(ReadingKey, key, "", dst), between) ==
            Reading(if between == "" then ReadingKey else ReadingKeyDone, key, "", dst)
  {
    var st := Reading(ReadingKey, key, "", dst);
    if between != "" {
      assert between == between[..1] + between[1..];
      RunJoin(st, between[..1], between[1..]);
      assert between[..1][..0] == "";
      assert Run(st, between[..1]) == Reading(ReadingKeyDone, key, "", dst);
      RunSpaces(Reading(ReadingKeyDone, key, "", dst), between[1..]);
    }
    RunJoin(st, between, "=");
    assert "="[..0] == "";
  }

  lemma {:induction false} RunEscape(key: string, dst: Config, value: string)
    ensures Run(Reading(ReadingVal, key, "", dst), Escape(value)) == Reading(ReadingVal, key, value, dst)
    decreases |value|
  {
    if value != "" {
      var n := |value| - 1;
      var c := value[n];
      RunEscape(key, dst, value[..n]);
      assert value == value[..n] + [c];
      var piece := if c == '"' || c == '\\' then ['\\', c] else [c];
      RunJoin(Reading(ReadingVal, key, "", dst), Escape(value[..n]), piece);
      RunPiece(key, dst, value[..n], c);
    }
  }

  lemma RunPiece(key: string, dst: Config, value: string, c: char)
    ensures
      var piece := if c == '"' || c == '\\' then ['\\', c] else [c];
      Run(Reading(ReadingVal, key, value, dst), piece) == Reading(ReadingVal, key, value + [c], dst)
  {
    var st := Reading(ReadingVal, key, value, dst);
    if c == '"' || c == '\\' {
      assert ['\\', c][..1] == ['\\'] && ['\\'][..0] == "";
      assert Run(st, ['\\']) == Reading(ReadingEsc, key, value, dst);
    } else {
      assert [c][..0] == "";
    }
  }

  lemma RunBinding(dst: Config, b: Binding)
    requires ValidBinding(b)
    ensures Run(Start(dst), Print(b)) == Start(dst[b.key := b.value])
  {
    hide Run, Escape, Step;
    var st := Start(dst);
    RunJoin(st, b.before, b.key);
    RunJoin(st, b.before + b.key, b.between + "=");
    var head := b.before + b.key + (b.between + "=");
    RunJoin(st, head, b.after);
    RunJoin(st, head + b.after, "\"");
    RunJoin(st, head + b.after + "\"", Escape(b.value));
    RunJoin(st, head + b.after + "\"" + Escape(b.value), "\"");
    assert Print(b) == head + b.after + "\"" + Escape(b.value) + "\"";
    RunSpaces(st, b.before);
    RunKey(dst, b.key);
    RunEquals(dst, b.key, b.between);
    RunSpaces(Reading(ReadingLq, b.key, "", dst), b.after);
    RunQuotes(b.key, b.value, dst);
    RunEscape(b.key, dst, b.value);
  }

  lemma RunQuotes(key: string, value: string, dst: Config)
    ensures Run(Reading(ReadingLq, key, "", dst), "\"") == Reading(ReadingVal, key, "", dst)
    ensures Run(Reading(ReadingVal, key, value, dst), "\"") == Start(dst[key := value])
  {
    assert "\""[..0] == "";
  }

  lemma {:induction false} RunAll(dst: Config, bs: seq<Binding>)
    requires ValidBindings(bs)
    ensures Run(Start(dst), PrintAll(bs)) == Start(Bound(dst, bs))
    decreases |bs|
  {
    hide Print;
    if bs != [] {
      var n := |bs| - 1;
      RunAll(dst, bs[..n]);
      RunJoin(Start(dst), PrintAll(bs[..n]), Print(bs[n]));
      RunBinding(Bound(dst, bs[..n]), bs[n]);
    }
  }

  /** Printed bindings, and spaces after them, are parsed to the map in which the last binding of each key wins. */
  lemma PrintedIsParsed(dst: Config, bs: seq<Binding>, rest: string)
    requires ValidBindings(bs) && Spaces(rest)
    ensures Run(Start(dst), PrintAll(bs) + rest) == Start(Bound(dst, bs))
  {
    RunJoin(Start(dst), PrintAll(bs), rest);
    RunAll(dst, bs);
    RunSpaces(Start(Bound(dst, bs)), rest);
  }

  // ---------- what is cut is rejected ----------

  lemma {:induction false} RunEscapeCut(key: string, dst: Config, value: string, m: nat)
    requires m <= |Escape(value)|
    ensures
      var st := Run(Reading(ReadingVal, key, "", dst), Escape(value)[..m]);
      st.Reading? && st.key == key
    decreases |value|
  {
    var st := Reading(ReadingVal, key, "", dst);
    if value == "" {
      assert Escape(value)[..m] == "";
    } else {
      var n := |value| - 1;
      var c := value[n];
      var before := Escape(value[..n]);
      if m <= |before| {
        RunEscapeCut(key, dst, value[..n], m);
        assert Escape(value)[..m] == before[..m];
      } else if m == |Escape(value)| {
        RunEscape(key, dst, value);
        assert Escape(value)[..m] == Escape(value);
      } else {
        assert Escape(value)[..m] == before + ['\\'];
        RunJoin(st, before, ['\\']);
        RunEscape(key, dst, value[..n]);
        assert ['\\'][..0] == "";
        assert Run(Reading(ReadingVal, key, value[..n], dst), ['\\']) == Reading(ReadingEsc, key, value[..n], dst);
      }
    }
  }

  /** Inside a binding, from the first character of its key to before its last quote, the key is not forgotten. */
  lemma RunCut(dst: Config, b: Binding, n: nat)
    requires ValidBinding(b) && |b.before| < n < |Print(b)|
    ensures !Accepts(Run(Start(dst), Print(b)[..n]))
  {
    hide Run, Escape, Step;
    var st := Start(dst);
    RunSpaces(st, b.before);
    RunKey(dst, b.key);
    var keyed := b.before + b.key;
    RunJoin(st, b.before, b.key);
    var equals := keyed + (b.between + "=");
    RunJoin(st, keyed, b.between + "=");
    RunEquals(dst, b.key, b.between);
    var quoted := equals + b.after + "\"";
    RunJoin(st, equals, b.after);
    RunSpaces(Reading(ReadingLq, b.key, "", dst), b.after);
    RunJoin(st, equals + b.after, "\"");
    RunQuotes(b.key, b.value, dst);
    assert Print(b) == quoted + Escape(b.value) + "\"";
    if n <= |keyed| {
      var m := n - |b.before|;
      assert Print(b)[..n] == b.before + b.key[..m];
      RunJoin(st, b.before, b.key[..m]);
      RunKey(dst, b.key[..m]);
    } else if n < |equals| {
      var m := n - |keyed|;
      assert Print(b)[..n] == keyed + b.between[..m];
      RunJoin(st, keyed, b.between[..m]);
      RunEquals(dst, b.key, b.between[..m]);
    } else if n < |quoted| {
      var m := n - |equals|;
      assert Print(b)[..n] == equals + b.after[..m];
      RunJoin(st, equals, b.after[..m]);
      RunSpaces(Reading(ReadingLq, b.key, "", dst), b.after[..m]);
    } else {
      var m := n - |quoted|;
      assert Print(b)[..n] == quoted + Escape(b.value)[..m];
      RunJoin(st, quoted, Escape(b.value)[..m]);
      RunEscapeCut(b.key, dst, b.value, m);
    }
  }

  /** Printed bindings cut inside the last one are rejected. */
  lemma CutIsRejected(dst: Config, bs: seq<Binding>, b: Binding, n: nat)
    requires ValidBindings(bs) && ValidBinding(b) && |b.before| < n < |Print(b)|
    ensures !Accepts(Run(Start(dst), PrintAll(bs) + Print(b)[..n]))
  {
    hide Print;
    RunJoin(Start(dst), PrintAll(bs), Print(b)[..n]);
    RunAll(dst, bs);
    RunCut(Bound(dst, bs), b, n);
  }

  // ---------- nothing else is accepted ----------

  /** How far a binding was read. */
  function Partial(phase: Phase, b: Binding): string {
    match phase
    case Init => b.before
    case ReadingKey => b.before + b.key
    case ReadingKeyDone => b.before + b.key + b.between
    case ReadingLq => b.before + b.key + b.between + "=" + b.after
    case ReadingVal => b.before + b.key + b.between + "=" + b.after + "\"" + Escape(b.value)
    case ReadingEsc => b.before + b.key + b.between + "=" + b.after + "\"" + Escape(b.value) + "\\"
  }

  /** `s` is the bindings `bs` printed, and `b` so far. */
  ghost predicate Read(dst: Config, s: string, st: State, bs: seq<Binding>, b: Binding) {
    && ValidBindings(bs) && st.Reading? && st.dst == Bound(dst, bs)
    && s == PrintAll(bs) + Partial(st.phase, b)
    && Spaces(b.before) && Spaces(b.between) && Spaces(b.after)
    && (if st.phase == Init then st.key == "" else IsKey(st.key) && b.key == st.key)
    && (if st.phase in {ReadingVal, ReadingEsc} then b.value == st.value else st.value == "")
  }

  /** One character more, outside the quotes. */
  lemma ReadOutside(phase: Phase, key: string, dst: Config, b: Binding, c: char) returns (b': Binding)
    requires phase in {Init, ReadingKey, ReadingKeyDone, ReadingLq} && Step(Reading(phase, key, "", dst), c).Reading?
    requires Spaces(b.before) && Spaces(b.between) && Spaces(b.after)
    requires if phase == Init then key == "" else IsKey(key) && b.key == key
    ensures
      var st := Step(Reading(phase, key, "", dst), c);
      && Partial(phase, b) + [c] == Partial(st.phase, b')
      && st.dst == dst && st.value == "" && Spaces(b'.before) && Spaces(b'.between) && Spaces(b'.after)
      && (if st.phase == Init then st.key == "" else IsKey(st.key) && b'.key == st.key)
      && st.phase != ReadingEsc && (st.phase == ReadingVal ==> b'.value == "")
  {
    if phase == Init {
      b' := if IsSpace(c) then b.(before := b.before + [c])
        else b.(key := [c], between := "", after := "", value := "");
    } else if phase == ReadingKey {
      b' := if IsSpace(c) then b.(between := [c])
            else if c == '=' then b.(between := "", after := "")
            else b.(key := b.key + [c]);
    } else if phase == ReadingKeyDone {
      b' := if IsSpace(c) then b.(between := b.between + [c]) else b.(after := "");
    } else {
      b' := if IsSpace(c) then b.(after := b.after + [c]) else b.(value := "");
    }
  }

  lemma EscapeMore(value: string, c: char)
    ensures Escape(value + [c]) == Escape(value) + if c == '"' || c == '\\' then ['\\', c] else [c]
  {
    assert (value + [c])[..|value|] == value;
  }

  /** One character more, inside the quotes and not the last. */
  lemma ReadInside(phase: Phase, key: string, dst: Config, b: Binding, c: char) returns (b': Binding)
    requires phase == ReadingEsc || (phase == ReadingVal && c != '"')
    requires Step(Reading(phase, key, b.value, dst), c).Reading?
    ensures
      var st := Step(Reading(phase, key, b.value, dst), c);
      && Partial(phase, b) + [c] == Partial(st.phase, b')
      && st.dst == dst && st.key == key && st.phase in {ReadingVal, ReadingEsc}
      && b' == b.(value := st.value)
  {
    hide Escape;
    b' := b;
    if phase == ReadingEsc || c != '\\' {
      b' := b.(value := b.value + [c]);
      EscapeMore(b.value, c);
    }
  }

  /** One character more. */
  lemma ReadMore(dst: Config, s: string, st: State, bs: seq<Binding>, b: Binding, c: char)
    returns (bs': seq<Binding>, b': Binding)
    requires Read(dst, s, st, bs, b) && Step(st, c).Reading?
    ensures Read(dst, s + [c], Step(st, c), bs', b')
  {
    hide Bound, ValidBindings, PrintAll, Escape, Spaces, IsKey;
    bs' := bs;
    assert s + [c] == PrintAll(bs) + (Partial(st.phase, b) + [c]);
    if st.phase in {Init, ReadingKey, ReadingKeyDone, ReadingLq} {
      b' := ReadOutside(st.phase, st.key, st.dst, b, c);
    } else if st.phase == ReadingVal && c == '"' {
      bs' := bs + [b];
      b' := b.(before := "");
      BindingRead(dst, bs, b);
      NoSpaces();
      assert PrintAll(bs') + "" == PrintAll(bs');
    } else {
      b' := ReadInside(st.phase, st.key, st.dst, b, c);
    }
  }

  lemma NoSpaces()
    ensures Spaces("")
  {
  }

  lemma BindingRead(dst: Config, bs: seq<Binding>, b: Binding)
    requires ValidBindings(bs) && ValidBinding(b)
    ensures ValidBindings(bs + [b]) && Bound(dst, bs + [b]) == Bound(dst, bs)[b.key := b.value]
    ensures PrintAll(bs + [b]) == PrintAll(bs) + Print(b)
  {
    assert (bs + [b])[..|bs|] == bs;
  }

  /** Whatever is read without failing is bindings printed, and part of one. */
  lemma {:induction false} ReadIsPrinted(dst: Config, s: string) returns (bs: seq<Binding>, b: Binding)
    requires Run(Start(dst), s).Reading?
    ensures Read(dst, s, Run(Start(dst), s), bs, b)
    decreases |s|
  {
    if s == "" {
      bs, b := [], Binding("", "", "", "", "");
    } else {
      var n := |s| - 1;
      var bs0, b0 := ReadIsPrinted(dst, s[..n]);
      assert s == s[..n] + [s[n]];
      bs, b := ReadMore(dst, s[..n], Run(Start(dst), s[..n]), bs0, b0, s[n]);
    }
  }

  ghost predicate IsPrinted(s: string, bs: seq<Binding>, rest: string) {
    ValidBindings(bs) && Spaces(rest) && s == PrintAll(bs) + rest
  }

  /** A string is accepted if and only if it is bindings printed, with spaces after them; and what it is parsed to is
      the map in which the last binding of each key wins. */
  lemma AcceptedIsPrinted(dst: Config, s: string)
    ensures Accepts(Run(Start(dst), s)) <==> exists bs, rest :: IsPrinted(s, bs, rest)
    ensures forall bs, rest :: IsPrinted(s, bs, rest) ==> Run(Start(dst), s) == Start(Bound(dst, bs))
  {
    forall bs, rest | IsPrinted(s, bs, rest)
      ensures Run(Start(dst), s) == Start(Bound(dst, bs))
    {
      PrintedIsParsed(dst, bs, rest);
    }
    if Accepts(Run(Start(dst), s)) {
      var bs, b := ReadIsPrinted(dst, s);
      assert IsPrinted(s, bs, b.before);
    }
  }
}

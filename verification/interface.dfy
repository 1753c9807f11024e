/** The command-line option parser `_parse_kwargs`
    (valutatrade_hub/cli/interface.py). */
module Interface {
  import opened Text

  /** A flag token: it starts with `--`. */
  predicate IsFlag(t: string) {
    StartsWith(t, "--")
  }

  /** The parser loop from index `i` with `out` built so far: a flag takes
      the next token as its value (whatever it looks like), or `""` when it is
      the last token; any other token is skipped. */
  function KwargsFrom(tokens: seq<string>, i: nat, out: map<string, string>): (r: map<string, string>)
    ensures out.Keys <= r.Keys
    ensures forall k | k in out && "--" + k !in tokens :: r[k] == out[k]
    decreases |tokens| - i
  {
    if i >= |tokens| then out
    else if IsFlag(tokens[i]) then
      var key := tokens[i][2..];
      assert tokens[i] == "--" + key by {
        assert tokens[i] == tokens[i][..2] + tokens[i][2..];
      }
      if i + 1 >= |tokens| then KwargsFrom(tokens, i + 1, out[key := ""])
      else KwargsFrom(tokens, i + 2, out[key := tokens[i + 1]])
    else KwargsFrom(tokens, i + 1, out)
  }

  /** `_parse_kwargs(tokens)`, specified. */
  function Kwargs(tokens: seq<string>): (r: map<string, string>)
    ensures forall k | k in r :: "--" + k in tokens
    ensures forall k | k in r :: r[k] == "" || r[k] in tokens
  {
    KeysComeFromFlags(tokens, 0, map[]);
    KwargsFrom(tokens, 0, map[])
  }

  /** `_parse_kwargs(tokens)`: the index moves on by one or two on every
      iteration, so the loop ends. */
  method ParseKwargs(tokens: seq<string>) returns (out: map<string, string>)
    ensures out == Kwargs(tokens)
  {
    out := map[];
    var i := 0;
    while i < |tokens|
      invariant 0 <= i <= |tokens|
      invariant KwargsFrom(tokens, i, out) == Kwargs(tokens)
      decreases |tokens| - i
    {
      var t := tokens[i];
      if IsFlag(t) {
        var key := t[2..];
        if i + 1 >= |tokens| {
          out := out[key := ""];
          i := i + 1;
        } else {
          out := out[key := tokens[i + 1]];
          i := i + 2;
        }
      } else {
        i := i + 1;
      }
    }
  }

  /** The parse from `i` does not end on a flag without a value. */
  predicate ClosedFrom(tokens: seq<string>, i: nat)
    decreases |tokens| - i
  {
    if i >= |tokens| then true
    else if IsFlag(tokens[i]) then i + 1 < |tokens| && ClosedFrom(tokens, i + 2)
    else ClosedFrom(tokens, i + 1)
  }

  // ---------------------------------------------------------------------
  // Properties

  /** `--key value` sets `key` to `value` and consumes both tokens, even when
      the value itself starts with `--`. */
  lemma FlagTakesNextToken(key: string, value: string, rest: seq<string>, out: map<string, string>)
    ensures KwargsFrom(["--" + key, value] + rest, 0, out) ==
            KwargsFrom(["--" + key, value] + rest, 2, out[key := value])
  {
    var tokens := ["--" + key, value] + rest;
    assert tokens[0][..2] == "--" && tokens[0][2..] == key;
  }

  /** A trailing `--key` maps `key` to the empty string. */
  lemma TrailingFlagIsEmpty(key: string, out: map<string, string>)
    ensures KwargsFrom(["--" + key], 0, out) == out[key := ""]
  {
    assert ["--" + key][0][..2] == "--" && ["--" + key][0][2..] == key;
  }

  /** A token that is not a flag is skipped. */
  lemma NonFlagIsSkipped(t: string, rest: seq<string>, out: map<string, string>)
    requires !IsFlag(t)
    ensures KwargsFrom([t] + rest, 0, out) == KwargsFrom([t] + rest, 1, out)
  {
  }

  /** Parsing from the join point of two lists is parsing the second list. */
  lemma {:induction false} ShiftedParse(a: seq<string>, b: seq<string>, j: nat, out: map<string, string>)
    ensures KwargsFrom(a + b, |a| + j, out) == KwargsFrom(b, j, out)
    decreases |b| - j
  {
    var t := a + b;
    if j < |b| {
      assert t[|a| + j] == b[j];
      if IsFlag(b[j]) && j + 1 < |b| {
        assert t[|a| + j + 1] == b[j + 1];
        ShiftedParse(a, b, j + 2, out[b[j][2..] := b[j + 1]]);
      } else if IsFlag(b[j]) {
        ShiftedParse(a, b, j + 1, out[b[j][2..] := ""]);
      } else {
        ShiftedParse(a, b, j + 1, out);
      }
    }
  }

  /** When the first list does not end on a dangling flag, parsing the
      concatenation parses the first list, then the second on top of it; so a
      repeated key keeps its last value. */
  lemma {:induction false} ClosedPrefixParse(a: seq<string>, b: seq<string>, i: nat, out: map<string, string>)
    requires i <= |a| && ClosedFrom(a, i)
    ensures KwargsFrom(a + b, i, out) == KwargsFrom(b, 0, KwargsFrom(a, i, out))
    decreases |a| - i
  {
    var t := a + b;
    if i == |a| {
      ShiftedParse(a, b, 0, out);
    } else {
      assert t[i] == a[i];
      if IsFlag(a[i]) {
        assert t[i + 1] == a[i + 1];
        ClosedPrefixParse(a, b, i + 2, out[a[i][2..] := a[i + 1]]);
      } else {
        ClosedPrefixParse(a, b, i + 1, out);
      }
    }
  }

  /** A repeated option keeps the value given last. */
  lemma LastValueWins(tokens: seq<string>, key: string, value: string)
    requires ClosedFrom(tokens, 0)
    ensures Kwargs(tokens + ["--" + key, value]) == Kwargs(tokens)[key := value]
  {
    ClosedPrefixParse(tokens, ["--" + key, value], 0, map[]);
    FlagTakesNextToken(key, value, [], Kwargs(tokens));
    assert ["--" + key, value] + [] == ["--" + key, value];
  }

  /** Every key of the result is some flag token with its `--` removed, and
      every value is the empty string or some token. */
  lemma {:induction false} KeysComeFromFlags(tokens: seq<string>, i: nat, out: map<string, string>)
    requires forall k | k in out :: exists j | 0 <= j < |tokens| :: tokens[j] == "--" + k
    requires forall k | k in out :: out[k] == "" || out[k] in tokens
    ensures forall k | k in KwargsFrom(tokens, i, out) :: exists j | 0 <= j < |tokens| :: tokens[j] == "--" + k
    ensures forall k | k in KwargsFrom(tokens, i, out) :: KwargsFrom(tokens, i, out)[k] == "" || KwargsFrom(tokens, i, out)[k] in tokens
    decreases |tokens| - i
  {
    if i < |tokens| && IsFlag(tokens[i]) {
      var key := tokens[i][2..];
      assert tokens[i] == "--" + key by {
        assert tokens[i] == tokens[i][..2] + tokens[i][2..];
      }
      if i + 1 >= |tokens| {
        KeysComeFromFlags(tokens, i + 1, out[key := ""]);
      } else {
        KeysComeFromFlags(tokens, i + 2, out[key := tokens[i + 1]]);
      }
    } else if i < |tokens| {
      KeysComeFromFlags(tokens, i + 1, out);
    }
  }
}

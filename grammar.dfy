/**
 * The filename grammar engine. Every product filename pattern of the mission
 * is a sequence of fixed-width fields joined by `_`, followed by a literal
 * container suffix and, for most patterns, the end anchor `$`. Because every
 * field has a fixed width, a regular-expression match is a split of the name
 * at fixed offsets plus a check of each character's class; `Match` performs
 * exactly that and returns the fields in order (the groups of the match).
 */
module FilenameGrammar {
  import opened Wrappers
  import opened Numerals

  /** What one character of a field may be. */
  datatype CharClass =
    | Exactly(c: char)      // a literal character
    | OneOf(cs: string)     // an alternation of single characters, as in `(_|A|B|C|D)`
    | Digit                 // `\d`, read as an ASCII digit
    | DigitOrT              // `[\dT]`
    | NotNewline            // `.`

  predicate Admits(k: CharClass, c: char) {
    match k
    case Exactly(d) => c == d
    case OneOf(cs) => c in cs
    case Digit => IsDigit(c)
    case DigitOrT => IsDigit(c) || c == 'T'
    case NotNewline => c != '\n'
  }

  /** A fixed-width field: the class of each of its characters. */
  type FieldSpec = seq<CharClass>

  predicate Fits(spec: FieldSpec, s: string) {
    |s| == |spec| && forall k :: 0 <= k < |s| ==> Admits(spec[k], s[k])
  }

  predicate FitsAll(specs: seq<FieldSpec>, fields: seq<string>) {
    |fields| == |specs| && forall i :: 0 <= i < |specs| ==> Fits(specs[i], fields[i])
  }

  /** A field that is the literal text `t` (a product type code, a letter prefix). */
  function Literal(t: string): (spec: FieldSpec)
    ensures |spec| == |t|
  {
    seq(|t|, k requires 0 <= k < |t| => Exactly(t[k]))
  }

  /** `.{n}` */
  function AnyChars(n: nat): (spec: FieldSpec)
    ensures |spec| == n
  {
    seq(n, k => NotNewline)
  }

  /** `[\d]{n}` */
  function Digits(n: nat): (spec: FieldSpec)
    ensures |spec| == n
  {
    seq(n, k => Digit)
  }

  /** `[\dT]{15}`, a compact timestamp field. */
  function Stamp(): (spec: FieldSpec)
    ensures |spec| == 15
  {
    seq(15, k => DigitOrT)
  }

  /** `S1(_|A|B|C|D)`, the mission field. */
  function Mission(): (spec: FieldSpec)
    ensures |spec| == 3
  {
    [Exactly('S'), Exactly('1'), OneOf("_ABCD")]
  }

  lemma FitsLiteral(t: string, s: string)
    ensures Fits(Literal(t), s) <==> s == t
  {
    if Fits(Literal(t), s) {
      assert forall k :: 0 <= k < |s| ==> s[k] == t[k];
    }
  }

  lemma FitsConcat(a: FieldSpec, b: FieldSpec, s: string)
    ensures Fits(a + b, s) <==> |s| == |a| + |b| && Fits(a, s[..|a|]) && Fits(b, s[|a|..])
  {
    if |s| == |a| + |b| && Fits(a, s[..|a|]) && Fits(b, s[|a|..]) {
      forall k | 0 <= k < |s|
        ensures Admits((a + b)[k], s[k])
      {
        if k < |a| {
          assert s[..|a|][k] == s[k];
        } else {
          assert s[|a|..][k - |a|] == s[k];
        }
      }
    }
  }

  lemma FitsMission(s: string)
    ensures Fits(Mission(), s) <==> |s| == 3 && s[..2] == "S1" && s[2] in "_ABCD"
  {
  }

  /** `"_".join(fields)` */
  function JoinFields(fields: seq<string>): string {
    if |fields| == 0 then ""
    else if |fields| == 1 then fields[0]
    else fields[0] + "_" + JoinFields(fields[1..])
  }

  /** A character that is not `_` and is in no field is not in the joined name. */
  lemma {:induction false} JoinFieldsAvoids(fields: seq<string>, c: char)
    requires c != '_' && forall i :: 0 <= i < |fields| ==> c !in fields[i]
    ensures c !in JoinFields(fields)
  {
    if |fields| > 1 {
      JoinFieldsAvoids(fields[1..], c);
    }
  }

  /** The joined name starts with the first field. */
  lemma JoinFieldsStart(fields: seq<string>)
    requires |fields| > 0
    ensures fields[0] <= JoinFields(fields)
  {
  }

  /**
   * A compiled filename pattern: the fields joined by `_`, then the literal
   * `suffix`, then `$` when `anchored`.
   */
  datatype Pattern = Pattern(fields: seq<FieldSpec>, suffix: string, anchored: bool)

  /** `pattern + suffix + "$"`, as a pattern extended by a further literal suffix and anchored. */
  function Extend(p: Pattern, suffix: string): Pattern {
    Pattern(p.fields, p.suffix + suffix, true)
  }

  /**
   * Reads the fields of `specs` from the start of `s`; returns them and what
   * follows the last one.
   */
  function Scan(specs: seq<FieldSpec>, s: string): Option<(seq<string>, string)>
    decreases |specs|
  {
    if specs == [] then Some(([], s))
    else
      var w := |specs[0]|;
      if |s| < w || !Fits(specs[0], s[..w]) then None
      else if |specs| == 1 then Some(([s[..w]], s[w..]))
      else if |s| == w || s[w] != '_' then None
      else
        match Scan(specs[1..], s[w + 1..])
        case None => None
        case Some(r) => Some(([s[..w]] + r.0, r.1))
  }

  /**
   * `re.match(pattern, s)`: the fields, in order, when `s` starts with a
   * match of the pattern (and ends there, when anchored).
   */
  function Match(p: Pattern, s: string): Option<seq<string>> {
    match Scan(p.fields, s)
    case None => None
    case Some(r) =>
      if (p.anchored && r.1 == p.suffix) || (!p.anchored && p.suffix <= r.1) then Some(r.0) else None
  }

  predicate Matches(p: Pattern, s: string) { Match(p, s).Some? }

  lemma {:induction false} ScanSound(specs: seq<FieldSpec>, s: string)
    requires Scan(specs, s).Some?
    ensures FitsAll(specs, Scan(specs, s).value.0)
    ensures s == JoinFields(Scan(specs, s).value.0) + Scan(specs, s).value.1
    decreases |specs|
  {
    if specs != [] {
      var w := |specs[0]|;
      if |specs| == 1 {
        assert s == s[..w] + s[w..];
      } else {
        var tail := Scan(specs[1..], s[w + 1..]).value;
        ScanSound(specs[1..], s[w + 1..]);
        var fs := [s[..w]] + tail.0;
        assert fs[1..] == tail.0;
        assert |tail.0| == |specs| - 1 > 0;
        assert JoinFields(fs) == s[..w] + "_" + JoinFields(tail.0);
        assert s == s[..w] + "_" + s[w + 1..];
        forall i | 0 <= i < |specs|
          ensures Fits(specs[i], fs[i])
        {
          if i > 0 {
            assert fs[i] == tail.0[i - 1] && specs[i] == specs[1..][i - 1];
          }
        }
      }
    }
  }

  lemma {:induction false} ScanComplete(specs: seq<FieldSpec>, fields: seq<string>, rest: string)
    requires FitsAll(specs, fields)
    ensures Scan(specs, JoinFields(fields) + rest) == Some((fields, rest))
    decreases |specs|
  {
    var s := JoinFields(fields) + rest;
    if specs == [] {
      assert fields == [];
      assert s == rest;
    } else {
      var w := |specs[0]|;
      FitsAllTail(specs, fields);
      if |specs| == 1 {
        assert fields == [fields[0]];
        SplitAt(fields[0], rest);
      } else {
        var tail := fields[1..];
        assert s == fields[0] + ("_" + (JoinFields(tail) + rest));
        SplitAtSeparator(fields[0], JoinFields(tail) + rest);
        ScanComplete(specs[1..], tail, rest);
        assert [fields[0]] + tail == fields;
      }
    }
  }

  /** The fields after the first fit the specifications after the first. */
  lemma FitsAllTail(specs: seq<FieldSpec>, fields: seq<string>)
    requires FitsAll(specs, fields) && |specs| > 0
    ensures Fits(specs[0], fields[0]) && |fields[0]| == |specs[0]| && FitsAll(specs[1..], fields[1..])
  {
    forall i | 0 <= i < |specs| - 1
      ensures Fits(specs[1..][i], fields[1..][i])
    {
      assert specs[1..][i] == specs[i + 1] && fields[1..][i] == fields[i + 1];
    }
  }

  lemma SplitAt(a: string, b: string)
    ensures (a + b)[..|a|] == a && (a + b)[|a|..] == b
  {
  }

  lemma SplitAtSeparator(a: string, b: string)
    ensures var s := a + ("_" + b); s[..|a|] == a && s[|a|] == '_' && s[|a| + 1..] == b
  {
  }

  /** The groups of a match fit their fields. */
  lemma MatchFits(p: Pattern, s: string)
    ensures Match(p, s).Some? ==> FitsAll(p.fields, Match(p, s).value)
  {
    if Match(p, s).Some? {
      ScanSound(p.fields, s);
    }
  }

  /**
   * An anchored pattern matches exactly the names made of fitting fields
   * joined by `_` and followed by the suffix, and gives those fields back.
   */
  lemma AnchoredMatch(p: Pattern, s: string, fields: seq<string>)
    requires p.anchored
    ensures Match(p, s) == Some(fields) <==> FitsAll(p.fields, fields) && s == JoinFields(fields) + p.suffix
  {
    if Match(p, s) == Some(fields) {
      ScanSound(p.fields, s);
    }
    if FitsAll(p.fields, fields) && s == JoinFields(fields) + p.suffix {
      ScanComplete(p.fields, fields, p.suffix);
    }
  }

  /**
   * A name without `/` matched by an anchored pattern that starts with the
   * mission is its fields joined and the suffix; the joined fields start
   * with `S` and have no `/`.
   */
  lemma MatchedName(p: Pattern, s: string)
    requires p.anchored && Matches(p, s) && '/' !in s && |p.fields| > 0 && p.fields[0] == Mission()
    ensures var f := Match(p, s).value;
            s == JoinFields(f) + p.suffix && FitsAll(p.fields, f) &&
            '/' !in JoinFields(f) && |JoinFields(f)| > 0 && JoinFields(f)[0] == 'S'
  {
    var f := Match(p, s).value;
    AnchoredMatch(p, s, f);
    assert Fits(Mission(), f[0]);
    assert Admits(Exactly('S'), f[0][0]);
    JoinFieldsStart(f);
    var j := JoinFields(f);
    forall k | 0 <= k < |j|
      ensures j[k] != '/'
    {
      assert j[k] == s[k];
    }
  }

  /** An unanchored pattern needs only a prefix of the name to match. */
  lemma UnanchoredMatch(p: Pattern, s: string, fields: seq<string>, tail: string)
    requires !p.anchored
    ensures FitsAll(p.fields, fields) && s == JoinFields(fields) + p.suffix + tail ==> Match(p, s) == Some(fields)
    ensures Match(p, s) == Some(fields) ==> FitsAll(p.fields, fields) && JoinFields(fields) + p.suffix <= s
  {
    if FitsAll(p.fields, fields) && s == JoinFields(fields) + p.suffix + tail {
      ScanComplete(p.fields, fields, p.suffix + tail);
      assert s == JoinFields(fields) + (p.suffix + tail);
    }
    if Match(p, s) == Some(fields) {
      ScanSound(p.fields, s);
      var rest := Scan(p.fields, s).value.1;
      assert rest == p.suffix + rest[|p.suffix|..];
      assert s == JoinFields(fields) + p.suffix + rest[|p.suffix|..];
    }
  }

  /** The anchored extension of a pattern matches what the pattern matches, followed by the new suffix. */
  lemma ExtendMatch(p: Pattern, suffix: string, s: string)
    requires !p.anchored
    ensures Matches(Extend(p, suffix), s) <==>
              exists fields :: FitsAll(p.fields, fields) && s == JoinFields(fields) + p.suffix + suffix
  {
    var q := Extend(p, suffix);
    if Matches(q, s) {
      var fields := Match(q, s).value;
      AnchoredMatch(q, s, fields);
      assert s == JoinFields(fields) + p.suffix + suffix;
    }
    if exists fields :: FitsAll(p.fields, fields) && s == JoinFields(fields) + p.suffix + suffix {
      var fields :| FitsAll(p.fields, fields) && s == JoinFields(fields) + p.suffix + suffix;
      AnchoredMatch(q, s, fields);
    }
  }

  /** A name an anchored pattern matches ends with the pattern's suffix. */
  lemma MatchEndsWithSuffix(p: Pattern, s: string)
    requires p.anchored
    ensures Matches(p, s) ==> |p.suffix| <= |s| && s[|s| - |p.suffix|..] == p.suffix
  {
    if Matches(p, s) {
      var fields := Match(p, s).value;
      AnchoredMatch(p, s, fields);
      assert s == JoinFields(fields) + p.suffix;
    }
  }
}

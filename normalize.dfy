/** The two input normalisers of app.py: `normalize_date` and `normalize_list`,
    with the Python string operations they use (`[:10]`, `split(",")`,
    `strip()`) spelled out. */
module Normalize {
  import opened Cells

  // ---------------------------------------------------------------- dates

  /** `s[:10]`: the first ten characters, or all of a shorter string. */
  function FirstTen(s: string): (r: string)
    ensures |r| == if |s| < 10 then |s| else 10
    ensures r <= s
  {
    if |s| <= 10 then s else s[..10]
  }

  /** `normalize_date(value)`: a datetime goes through `strftime("%Y-%m-%d")`;
      any other truthy value is cut to its first ten characters; a falsy
      value gives "". */
  function NormalizeDate(v: Cell): (r: string)
    ensures |r| <= 10
    ensures !Truthy(v) ==> r == ""
    ensures Truthy(v) && !v.Timestamp? ==> r <= Str(v) && |r| == if |Str(v)| < 10 then |Str(v)| else 10
    ensures v.Timestamp? ==> |r| == 10 && r[4] == '-' && r[7] == '-'
  {
    match v
    case Timestamp(dt) => DateText(dt)
    case _ => if Truthy(v) then FirstTen(Str(v)) else ""
  }

  /** The `strftime` branch yields exactly what the generic branch would:
      the first ten characters of `str(value)`. */
  lemma DateBranchIsPrefixOfStr(dt: DateTime)
    ensures NormalizeDate(Timestamp(dt)) == Str(Timestamp(dt))[..10]
  {
  }

  /** Reads the year, month and day back out of a `YYYY-MM-DD` string. */
  function ParseDate(r: string): (ymd: (int, int, int))
    requires |r| == 10
  {
    (DigitsValue(r[..4]), DigitsValue(r[5..7]), DigitsValue(r[8..]))
  }

  /** A normalised datetime keeps its calendar date. */
  lemma DateRoundTrip(dt: DateTime)
    ensures var r := NormalizeDate(Timestamp(dt));
            |r| == 10 && ParseDate(r) == (dt.year as int, dt.month as int, dt.day as int)
  {
  }

  /** Normalising an already normalised date changes nothing. */
  lemma NormalizeDateIdempotent(v: Cell)
    ensures NormalizeDate(Text(NormalizeDate(v))) == NormalizeDate(v)
  {
  }

  // ---------------------------------------------------------------- lists

  function CommaCount(s: string): nat
  {
    multiset(s)[',']
  }

  /** `s.split(",")`: the pieces between commas, in order; never empty. */
  function Split(s: string): (r: seq<string>)
    ensures |r| == CommaCount(s) + 1
    ensures forall i :: 0 <= i < |r| ==> ',' !in r[i]
  {
    if s == [] then [""]
    else
      assert s == [s[0]] + s[1..];
      var rest := Split(s[1..]);
      if s[0] == ',' then [""] + rest
      else [[s[0]] + rest[0]] + rest[1..]
  }

  /** `",".join(pieces)`. */
  function Join(pieces: seq<string>): string
  {
    if pieces == [] then ""
    else if |pieces| == 1 then pieces[0]
    else pieces[0] + "," + Join(pieces[1..])
  }

  lemma JoinCons(x: string, rest: seq<string>)
    requires rest != []
    ensures Join([x] + rest) == x + "," + Join(rest)
  {
    assert ([x] + rest)[1..] == rest;
  }

  lemma JoinPrepend(c: char, rest: seq<string>)
    requires rest != []
    ensures Join([[c] + rest[0]] + rest[1..]) == [c] + Join(rest)
  {
    if |rest| > 1 {
      JoinCons([c] + rest[0], rest[1..]);
      JoinCons(rest[0], rest[1..]);
      assert rest == [rest[0]] + rest[1..];
    }
  }

  /** One character more in front of the string: one character more in
      front of the joined pieces. */
  lemma JoinSplitStep(s: string)
    requires s != []
    ensures Join(Split(s)) == [s[0]] + Join(Split(s[1..]))
  {
    var rest := Split(s[1..]);
    if s[0] == ',' {
      assert Split(s) == [""] + rest;
      JoinCons("", rest);
    } else {
      assert Split(s) == [[s[0]] + rest[0]] + rest[1..];
      JoinPrepend(s[0], rest);
    }
  }

  lemma {:induction false} JoinSplit(s: string)
    ensures Join(Split(s)) == s
  {
    if s != [] {
      JoinSplit(s[1..]);
      JoinSplitStep(s);
      assert s == [s[0]] + s[1..];
    }
  }

  lemma {:induction false} SplitCommaFree(t: string)
    requires ',' !in t
    ensures Split(t) == [t]
  {
    if t != [] {
      assert t == [t[0]] + t[1..];
      SplitCommaFree(t[1..]);
    }
  }

  lemma {:induction false} SplitAtComma(t: string, u: string)
    requires ',' !in t
    ensures Split(t + "," + u) == [t] + Split(u)
  {
    if t == [] {
      assert t + "," + u == [','] + u;
    } else {
      var w := t + "," + u;
      assert w[0] == t[0] && w[1..] == t[1..] + "," + u;
      assert t == [t[0]] + t[1..];
      assert t[0] in t;
      SplitAtComma(t[1..], u);
      var rest := Split(w[1..]);
      assert rest[0] == t[1..] && rest[1..] == Split(u);
      assert Split(w) == [[t[0]] + rest[0]] + rest[1..];
    }
  }

  lemma {:induction false} SplitJoin(pieces: seq<string>)
    requires pieces != []
    requires forall i :: 0 <= i < |pieces| ==> ',' !in pieces[i]
    ensures Split(Join(pieces)) == pieces
  {
    if |pieces| == 1 {
      SplitCommaFree(pieces[0]);
    } else {
      SplitAtComma(pieces[0], Join(pieces[1..]));
      SplitJoin(pieces[1..]);
    }
  }

  /** `s.lstrip()`. */
  function LStrip(s: string): (r: string)
    ensures |r| <= |s| && r == s[|s| - |r|..]
    ensures forall i :: 0 <= i < |s| - |r| ==> IsSpace(s[i])
    ensures r == [] || !IsSpace(r[0])
  {
    if s != [] && IsSpace(s[0]) then
      var r := LStrip(s[1..]);
      assert s[1..][|s| - 1 - |r|..] == s[|s| - |r|..];
      assert forall i :: 0 < i < |s| - |r| ==> s[i] == s[1..][i - 1];
      r
    else s
  }

  /** `s.rstrip()`. */
  function RStrip(s: string): (r: string)
    ensures |r| <= |s| && r == s[..|r|]
    ensures forall i :: |r| <= i < |s| ==> IsSpace(s[i])
    ensures r == [] || !IsSpace(r[|r| - 1])
  {
    if s != [] && IsSpace(s[|s| - 1]) then RStrip(s[..|s| - 1]) else s
  }

  /** `s.strip()`: the slice of `s` left after removing whitespace at both
      ends; it is empty exactly when `s` is all whitespace. */
  function Strip(s: string): (r: string)
    ensures r == [] || (!IsSpace(r[0]) && !IsSpace(r[|r| - 1]))
    ensures StripStart(s) + |r| <= |s| && r == s[StripStart(s)..StripStart(s) + |r|]
    ensures forall i :: 0 <= i < StripStart(s) ==> IsSpace(s[i])
    ensures forall i :: StripStart(s) + |r| <= i < |s| ==> IsSpace(s[i])
    ensures r == [] <==> forall i :: 0 <= i < |s| ==> IsSpace(s[i])
  {
    RStrip(LStrip(s))
  }

  /** Where the stripped text begins inside `s`. */
  function StripStart(s: string): (k: nat)
    ensures k <= |s|
  {
    |s| - |LStrip(s)|
  }

  lemma StripKeepsCommaFree(s: string)
    requires ',' !in s
    ensures ',' !in Strip(s)
  {
  }

  /** A token as `normalize_list` promises it: non-empty, comma-free, with no
      whitespace at either end. */
  predicate Clean(t: string)
  {
    t != [] && ',' !in t && !IsSpace(t[0]) && !IsSpace(t[|t| - 1])
  }

  lemma StripClean(t: string)
    requires Clean(t)
    ensures Strip(t) == t
  {
  }

  /** The non-empty strings of `ts`, in order. */
  function NonEmpty(ts: seq<string>): (r: seq<string>)
    ensures |r| <= |ts|
    ensures forall k :: 0 <= k < |r| ==> r[k] != []
  {
    if ts == [] then []
    else
      var n := |ts| - 1;
      NonEmpty(ts[..n]) + (if ts[n] != [] then [ts[n]] else [])
  }

  /** The positions of the strings `NonEmpty` keeps: increasing, and exactly
      those of the non-empty strings. */
  function Kept(ts: seq<string>): (idx: seq<nat>)
    ensures forall k :: 0 <= k < |idx| ==> idx[k] < |ts| && ts[idx[k]] != []
    ensures forall k, l :: 0 <= k < l < |idx| ==> idx[k] < idx[l]
    ensures forall i :: 0 <= i < |ts| && ts[i] != [] ==> i in idx
  {
    if ts == [] then []
    else
      var n := |ts| - 1;
      Kept(ts[..n]) + (if ts[n] != [] then [n] else [])
  }

  lemma {:induction false} NonEmptyAtKept(ts: seq<string>)
    ensures |NonEmpty(ts)| == |Kept(ts)|
    ensures forall k :: 0 <= k < |Kept(ts)| ==> NonEmpty(ts)[k] == ts[Kept(ts)[k]]
  {
    if ts != [] {
      var n := |ts| - 1;
      NonEmptyAtKept(ts[..n]);
    }
  }

  /** Every piece, stripped. */
  function Stripped(pieces: seq<string>): (r: seq<string>)
    ensures |r| == |pieces|
    ensures forall i :: 0 <= i < |pieces| ==> r[i] == Strip(pieces[i])
  {
    seq(|pieces|, i requires 0 <= i < |pieces| => Strip(pieces[i]))
  }

  /** `[p.strip() for p in pieces if p.strip()]`. */
  function Tokens(pieces: seq<string>): (r: seq<string>)
    ensures |r| <= |pieces|
  {
    NonEmpty(Stripped(pieces))
  }

  /** The tokens are the stripped non-blank pieces, in the pieces' order,
      and every non-blank piece gives one. */
  lemma TokensInOrder(pieces: seq<string>)
    ensures var idx := Kept(Stripped(pieces));
      && |Tokens(pieces)| == |idx|
      && (forall k :: 0 <= k < |idx| ==> idx[k] < |pieces| && Tokens(pieces)[k] == Strip(pieces[idx[k]]))
      && (forall k, l :: 0 <= k < l < |idx| ==> idx[k] < idx[l])
      && (forall i :: 0 <= i < |pieces| && Strip(pieces[i]) != [] ==> i in idx)
  {
    NonEmptyAtKept(Stripped(pieces));
  }

  lemma TokensClean(pieces: seq<string>)
    requires forall i :: 0 <= i < |pieces| ==> ',' !in pieces[i]
    ensures forall k :: 0 <= k < |Tokens(pieces)| ==> Clean(Tokens(pieces)[k])
  {
    var st := Stripped(pieces);
    NonEmptyAtKept(st);
    var idx := Kept(st);
    forall k | 0 <= k < |Tokens(pieces)|
      ensures Clean(Tokens(pieces)[k])
    {
      var i := idx[k];
      var t := Tokens(pieces)[k];
      assert t == Strip(pieces[i]) && t != [];
      StripKeepsCommaFree(pieces[i]);
      assert !IsSpace(t[0]) && !IsSpace(t[|t| - 1]);
    }
  }

  lemma {:induction false} NonEmptyKeepsAll(ts: seq<string>)
    requires forall k :: 0 <= k < |ts| ==> ts[k] != []
    ensures NonEmpty(ts) == ts
  {
    if ts != [] {
      var n := |ts| - 1;
      NonEmptyKeepsAll(ts[..n]);
      assert ts == ts[..n] + [ts[n]];
    }
  }

  lemma TokensOfClean(ts: seq<string>)
    requires forall k :: 0 <= k < |ts| ==> Clean(ts[k])
    ensures Tokens(ts) == ts
  {
    var stripped := Stripped(ts);
    forall k | 0 <= k < |ts| ensures stripped[k] == ts[k] {
      StripClean(ts[k]);
    }
    assert stripped == ts;
    NonEmptyKeepsAll(ts);
  }

  /** `normalize_list(value)`: nothing for a falsy value or NaN, otherwise
      the stripped non-blank comma-separated pieces of `str(value)`. */
  function NormalizeList(v: Cell): (r: seq<string>)
    ensures !Truthy(v) || v.NaN? ==> r == []
    ensures forall k :: 0 <= k < |r| ==> Clean(r[k])
    ensures |r| <= CommaCount(Str(v)) + 1
  {
    if !Truthy(v) || v.NaN? then []
    else
      var pieces := Split(Str(v));
      TokensClean(pieces);
      Tokens(pieces)
  }

  lemma {:induction false} JoinNotEmpty(ts: seq<string>)
    requires ts != [] && ts[0] != []
    ensures Join(ts) != []
  {
    if |ts| > 1 {
      assert Join(ts) == ts[0] + "," + Join(ts[1..]);
    }
  }

  /** Clean tokens joined with commas come back unchanged. */
  lemma NormalizeListJoin(ts: seq<string>)
    requires forall k :: 0 <= k < |ts| ==> Clean(ts[k])
    ensures NormalizeList(Text(Join(ts))) == ts
  {
    if ts != [] {
      var j := Join(ts);
      JoinNotEmpty(ts);
      assert Truthy(Text(j)) && Str(Text(j)) == j;
      SplitJoin(ts);
      TokensOfClean(ts);
      assert NormalizeList(Text(j)) == Tokens(Split(j));
    }
  }
}

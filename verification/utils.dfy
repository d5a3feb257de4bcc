/** The sequence and string helpers of `stdnet/utils/__init__.py`:
    `grouper`, `_format_int`, `flat_mapping`, `flat2d` and `flatzset`. */
module Utils {
  import opened Strings
  import opened Results
  import opened OrderedMaps

  /** Concatenation of a sequence of sequences (`chain(*ss)`, or `''.join`). */
  function Concat<T>(ss: seq<seq<T>>): seq<T> {
    if |ss| == 0 then [] else ss[0] + Concat(ss[1..])
  }

  /** `k` copies of the fill value. */
  function Pad<T>(pad: T, k: nat): (r: seq<T>)
    ensures |r| == k
    ensures forall i :: 0 <= i < k ==> r[i] == pad
  {
    if k == 0 then [] else [pad] + Pad(pad, k - 1)
  }

  lemma {:induction false} ConcatAppend<T>(a: seq<seq<T>>, b: seq<seq<T>>)
    ensures Concat(a + b) == Concat(a) + Concat(b)
  {
    if |a| > 0 {
      assert (a + b)[1..] == a[1..] + b;
      ConcatAppend(a[1..], b);
    } else {
      assert a + b == b;
    }
  }

  /** How many pad values fill up the last group when `len` items are cut
      into groups of `n`: none when `len` is a multiple of `n`. */
  function Fill(n: int, len: nat): (k: nat)
    requires n > 0
    ensures k < n
    decreases len
  {
    if len == 0 then 0 else if len <= n then n - len else Fill(n, len - n)
  }

  /** `grouper(n, s, pad)`, i.e. `zip_longest(*[iter(s)] * n, fillvalue=pad)`:
      consecutive `n`-tuples of `s`, the last one filled up with `pad`. A
      non-positive `n` gives `zip_longest()` with no iterables, which is empty. */
  function Grouper<T>(n: int, s: seq<T>, pad: T): (r: seq<seq<T>>)
    ensures n <= 0 ==> r == []
    ensures n > 0 ==> |s| <= |r| * n < |s| + n
    ensures forall i :: 0 <= i < |r| ==> |r[i]| == n
    ensures n > 0 ==> Concat(r) == s + Pad(pad, Fill(n, |s|))
    decreases |s|
  {
    if n <= 0 || |s| == 0 then []
    else if |s| <= n then
      var g := s + Pad(pad, n - |s|);
      assert Concat([g]) == g + Concat([]);
      [g]
    else
      var rest := Grouper(n, s[n..], pad);
      assert (|rest| + 1) * n == |rest| * n + n;
      var r := [s[..n]] + rest;
      assert Concat(r) == s[..n] + Concat(rest) by {
        ConcatAppend([s[..n]], rest);
        assert Concat([s[..n]]) == s[..n] + Concat([]);
      }
      assert s[..n] + s[n..] == s;
      r
  }

  /** Grouper's own example: `grouper(3, 'abcdefg', 'x')` is
      `('a','b','c'), ('d','e','f'), ('g','x','x')`. */
  lemma GrouperExample()
    ensures Grouper(3, "abcdefg", 'x') == ["abc", "def", "gxx"]
  {
    assert Grouper(3, "g", 'x') == ["gxx"] by {
      assert Pad('x', 0) == [];
      assert Pad('x', 1) == "x";
      assert Pad('x', 2) == "xx";
      assert "g" + "xx" == "gxx";
    }
    assert "defg"[3..] == "g" && "defg"[..3] == "def";
    assert Grouper(3, "defg", 'x') == ["def", "gxx"];
    assert "abcdefg"[3..] == "defg" && "abcdefg"[..3] == "abc";
  }

  // ---------------------------------------------------------------------
  // _format_int

  /** The characters of `s`, each as a one-character string, as iterating a
      Python string yields them. */
  function Chars(s: string): (r: seq<string>)
    ensures |r| == |s|
    ensures forall i :: 0 <= i < |s| ==> r[i] == [s[i]]
  {
    seq(|s|, i requires 0 <= i < |s| => [s[i]])
  }

  /** `''.join(g)` for every tuple `g` of the grouping. */
  function JoinEach(gs: seq<seq<string>>): (r: seq<string>)
    ensures |r| == |gs|
    ensures forall i :: 0 <= i < |gs| ==> r[i] == Concat(gs[i])
  {
    if |gs| == 0 then [] else [Concat(gs[0])] + JoinEach(gs[1..])
  }

  /** The digits of `|val|`, reversed, cut into groups of three and each group
      joined: the groups before the `,`-join and final reversal. */
  function DigitGroups(val: int): seq<string> {
    var digits := Decimal(if val < 0 then -val else val);
    Groups(3, Reverse(digits))
  }

  /** `_format_int(val)`: the decimal digits of `|val|` with a comma between
      every three, counted from the right, and `-` in front of a negative
      value. */
  function FormatInt(val: int): string {
    var sval := Reverse(Join(",", DigitGroups(val)));
    if val >= 0 then sval else "-" + sval
  }

  /** The digits-and-commas part of `_format_int(val)`, after any sign. */
  function FormatIntBody(val: int): string {
    Reverse(Join(",", DigitGroups(val)))
  }

  lemma {:induction false} ConcatPadEmpty(k: nat)
    ensures Concat(Pad("", k)) == ""
  {
    if k > 0 {
      assert Pad("", k)[1..] == Pad("", k - 1);
      ConcatPadEmpty(k - 1);
    }
  }

  lemma {:induction false} ConcatChars(s: string)
    ensures Concat(Chars(s)) == s
  {
    if |s| > 0 {
      assert Chars(s)[1..] == Chars(s[1..]);
      ConcatChars(s[1..]);
      assert [s[0]] + s[1..] == s;
    }
  }

  /** The groups of `s` cut into `n`-character pieces with `''` as the fill
      value, each group joined back into a string. */
  function Groups(n: nat, s: string): seq<string>
    requires n > 0
  {
    JoinEach(Grouper(n, Chars(s), ""))
  }

  /** One step of the grouping: a string longer than `n` gives its first `n`
      characters followed by the groups of the rest; a shorter non-empty one
      gives itself. */
  lemma GroupsUnfold(n: nat, s: string)
    requires n > 0
    ensures |s| == 0 ==> Groups(n, s) == []
    ensures 0 < |s| <= n ==> Groups(n, s) == [s]
    ensures |s| > n ==> Groups(n, s) == [s[..n]] + Groups(n, s[n..])
  {
    var cs := Chars(s);
    if 0 < |s| <= n {
      var g := cs + Pad("", n - |s|);
      assert Grouper(n, cs, "") == [g];
      ConcatAppend(cs, Pad("", n - |s|));
      ConcatChars(s);
      ConcatPadEmpty(n - |s|);
      assert Concat(g) == s;
      assert JoinEach([g]) == [Concat(g)] + JoinEach([]);
    } else if |s| > n {
      assert cs[n..] == Chars(s[n..]);
      assert cs[..n] == Chars(s[..n]);
      ConcatChars(s[..n]);
      var rest := Grouper(n, cs[n..], "");
      assert Grouper(n, cs, "") == [cs[..n]] + rest;
      assert JoinEach([cs[..n]] + rest) == [Concat(cs[..n])] + JoinEach(rest);
    }
  }

  /** Joined together, the groups spell the string. */
  lemma {:induction false} GroupsConcat(n: nat, s: string)
    requires n > 0
    ensures Concat(Groups(n, s)) == s
    decreases |s|
  {
    GroupsUnfold(n, s);
    if 0 < |s| <= n {
      assert Concat([s]) == s + Concat([]);
    } else if |s| > n {
      GroupsConcat(n, s[n..]);
      assert s[..n] + s[n..] == s;
    }
  }

  /** Every group but the last holds exactly `n` characters, the last 1 to
      `n`, and there is a group exactly when the string is not empty. */
  lemma {:induction false} GroupsSizes(n: nat, s: string)
    requires n > 0
    ensures var gs := Groups(n, s);
      && (|gs| == 0 <==> |s| == 0)
      && (forall i :: 0 <= i < |gs| - 1 ==> |gs[i]| == n)
      && (|gs| > 0 ==> 1 <= |gs[|gs| - 1]| <= n)
    decreases |s|
  {
    GroupsUnfold(n, s);
    if |s| > n {
      GroupsSizes(n, s[n..]);
    }
  }

  /** Groups of a digit string are digit strings. */
  lemma {:induction false} GroupsDigits(n: nat, s: string)
    requires n > 0
    requires AllDigits(s)
    ensures forall i :: 0 <= i < |Groups(n, s)| ==> AllDigits(Groups(n, s)[i])
    decreases |s|
  {
    GroupsUnfold(n, s);
    if |s| > n {
      assert AllDigits(s[n..]);
      GroupsDigits(n, s[n..]);
    }
  }

  lemma {:induction false} WithoutJoin(parts: seq<string>, c: char)
    requires forall i :: 0 <= i < |parts| ==> c !in parts[i]
    ensures Without(Join([c], parts), c) == Concat(parts)
  {
    if |parts| == 1 {
      WithoutAbsent(parts[0], c);
      assert Concat(parts) == parts[0] + Concat([]);
    } else if |parts| > 1 {
      WithoutJoin(parts[1..], c);
      WithoutAppend(parts[0] + [c], Join([c], parts[1..]), c);
      WithoutAppend(parts[0], [c], c);
      WithoutAbsent(parts[0], c);
      assert Without([c], c) == "" + Without([], c);
    }
  }

  lemma {:induction false} WithoutReverse(s: string, c: char)
    ensures Without(Reverse(s), c) == Reverse(Without(s, c))
  {
    if |s| > 0 {
      WithoutReverse(s[1..], c);
      assert Reverse(s) == Reverse(s[1..]) + [s[0]];
      WithoutAppend(Reverse(s[1..]), [s[0]], c);
      assert Without([s[0]], c) == (if s[0] == c then "" else [s[0]]) + Without([], c);
      ReverseAppend(if s[0] == c then "" else [s[0]], Without(s[1..], c));
    }
  }

  /** The groups of a string in reverse order, each itself reversed. */
  function ReverseGroups(gs: seq<string>): (r: seq<string>)
    ensures |r| == |gs|
    ensures forall i :: 0 <= i < |gs| ==> r[i] == Reverse(gs[|gs| - 1 - i])
  {
    seq(|gs|, i requires 0 <= i < |gs| => Reverse(gs[|gs| - 1 - i]))
  }

  lemma {:induction false} JoinSnoc(parts: seq<string>, x: string, c: char)
    requires 1 <= |parts|
    ensures Join([c], parts + [x]) == Join([c], parts) + [c] + x
  {
    if |parts| == 1 {
      assert (parts + [x])[1..] == [x];
    } else {
      assert (parts + [x])[1..] == parts[1..] + [x];
      JoinSnoc(parts[1..], x, c);
    }
  }

  lemma {:induction false} ReverseJoin(gs: seq<string>, c: char)
    requires 1 <= |gs|
    ensures Reverse(Join([c], gs)) == Join([c], ReverseGroups(gs))
  {
    if |gs| == 1 {
    } else {
      ReverseJoin(gs[1..], c);
      var tail := ReverseGroups(gs[1..]);
      assert ReverseGroups(gs) == tail + [Reverse(gs[0])];
      JoinSnoc(tail, Reverse(gs[0]), c);
      ReverseAppend(gs[0] + [c], Join([c], gs[1..]));
      ReverseAppend(gs[0], [c]);
    }
  }

  /** Grouping a digit string from the right and removing the commas again
      gives the digit string back. */
  lemma UngroupDigits(d: string)
    requires AllDigits(d)
    ensures Without(Reverse(Join(",", Groups(3, Reverse(d)))), ',') == d
  {
    var rd := Reverse(d);
    var gs := Groups(3, rd);
    assert AllDigits(rd);
    GroupsDigits(3, rd);
    GroupsConcat(3, rd);
    forall i | 0 <= i < |gs|
      ensures ',' !in gs[i]
    {
      DigitsExclude(gs[i], ',');
    }
    WithoutReverse(Join(",", gs), ',');
    WithoutJoin(gs, ',');
    ReverseReverse(d);
  }

  /** Removing the commas from `_format_int(v)` leaves the decimal digits of
      `|v|`, preceded by `-` exactly when `v` is negative. */
  lemma FormatIntDigits(v: int)
    ensures Without(FormatIntBody(v), ',') == Decimal(if v < 0 then -v else v)
    ensures FormatInt(v) == (if v < 0 then "-" else "") + FormatIntBody(v)
  {
    var digits := Decimal(if v < 0 then -v else v);
    UngroupDigits(digits);
    assert FormatIntBody(v) == Reverse(Join(",", Groups(3, Reverse(digits))));
  }

  /** Every comma-separated group of `_format_int(v)` holds one to three
      digits, and every group after the first holds exactly three. */
  lemma FormatIntGroups(v: int)
    ensures var parts := Split(FormatIntBody(v), ',');
      && 1 <= |parts[0]| <= 3
      && (forall i :: 1 <= i < |parts| ==> |parts[i]| == 3)
      && (forall i :: 0 <= i < |parts| ==> AllDigits(parts[i]))
  {
    var digits := Decimal(if v < 0 then -v else v);
    GroupedDigitsSplit(digits);
    assert FormatIntBody(v) == Reverse(Join(",", Groups(3, Reverse(digits))));
  }

  /** The groups of a non-empty digit string, cut from the right and joined
      with commas, split back into groups of one to three digits, all full
      but the first. */
  lemma GroupedDigitsSplit(d: string)
    requires AllDigits(d) && 1 <= |d|
    ensures var parts := Split(Reverse(Join(",", Groups(3, Reverse(d)))), ',');
      && 1 <= |parts[0]| <= 3
      && (forall i :: 1 <= i < |parts| ==> |parts[i]| == 3)
      && (forall i :: 0 <= i < |parts| ==> AllDigits(parts[i]))
  {
    var rd := Reverse(d);
    var gs := Groups(3, rd);
    assert AllDigits(rd);
    GroupsDigits(3, rd);
    GroupsSizes(3, rd);
    var hs := ReverseGroups(gs);
    ReverseJoin(gs, ',');
    forall i | 0 <= i < |hs|
      ensures ',' !in hs[i] && AllDigits(hs[i])
    {
      assert AllDigits(hs[i]);
      DigitsExclude(hs[i], ',');
    }
    SplitJoin(hs, ',');
  }

  /** `format_int(val)` as written: when the interpreter supports the `{:,}`
      format, the result is `_format_int`'s text (the two agree on integers);
      otherwise the fallback computes `_format_int(val)` but drops it, so the
      call yields `None`. */
  function FormatIntAsWritten(val: int, formatSupported: bool): (r: Option<string>)
    ensures formatSupported <==> r.Some?
    ensures r.Some? ==> r.value == FormatInt(val)
  {
    if formatSupported then Some(FormatInt(val)) else None
  }

  lemma Decimal1000()
    ensures Decimal(1000) == "1000"
  {
    assert Decimal(1) == "1";
    assert Decimal(10) == "10";
    assert Decimal(100) == "100";
  }

  lemma DigitGroups1000()
    ensures DigitGroups(1000) == ["000", "1"]
  {
    Decimal1000();
    assert Reverse("1000") == "0001";
    GroupsUnfold(3, "0001");
    assert "0001"[..3] == "000" && "0001"[3..] == "1";
    GroupsUnfold(3, "1");
  }

  /** On an interpreter without the `{:,}` format, `format_int(1000)` yields
      `None` instead of `"1,000"`. */
  lemma FormatIntFallbackDropsResult()
    ensures FormatIntAsWritten(1000, false) == None
    ensures FormatInt(1000) == "1,000"
  {
    DigitGroups1000();
    assert Join(",", ["000", "1"]) == "000,1";
    assert Reverse("000,1") == "1,000";
  }

  /** `format_int(val)` as evidently intended: the fallback returns what
      `_format_int` computes, so the result is always the grouped text. */
  function FormatIntCorrected(val: int, formatSupported: bool): (r: Option<string>)
    ensures r.Some?
    ensures Without(r.value, ',') == (if val < 0 then "-" + Decimal(-val) else Decimal(val))
  {
    FormatIntDigits(val);
    WithoutAppend("-", FormatIntBody(val), ',');
    Some(FormatInt(val))
  }

  // ---------------------------------------------------------------------
  // flat_mapping, flat2d, flatzset

  /** The argument of `flat_mapping`: a `dict`, whose items are iterated, or
      any iterable of pairs. */
  datatype Mapping<T> = ADict(entries: OMap<T, T>) | Pairs(pairs: seq<seq<T>>)

  /** The `(key, value)` items of a dictionary. */
  function Items<T>(o: OMap<T, T>): (r: seq<seq<T>>)
    ensures |r| == |o|
    ensures forall i :: 0 <= i < |o| ==> r[i] == [o[i].key, o[i].value]
  {
    seq(|o|, i requires 0 <= i < |o| => [o[i].key, o[i].value])
  }

  /** Each item contributes its two elements in place. */
  predicate AllPairs<T>(items: seq<seq<T>>) {
    forall i :: 0 <= i < |items| ==> |items[i]| == 2
  }

  lemma {:induction false} ConcatPairs<T>(items: seq<seq<T>>)
    requires AllPairs(items)
    ensures |Concat(items)| == 2 * |items|
    ensures forall i :: 0 <= i < |items| ==>
      Concat(items)[2 * i] == items[i][0] && Concat(items)[2 * i + 1] == items[i][1]
  {
    if |items| > 0 {
      ConcatPairs(items[1..]);
      var c := Concat(items);
      assert c == items[0] + Concat(items[1..]);
      forall i | 1 <= i < |items|
        ensures c[2 * i] == items[i][0] && c[2 * i + 1] == items[i][1]
      {
        assert items[1..][i - 1] == items[i];
      }
    }
  }

  /** `flat_mapping(mapping)`: every pair extended in turn onto one list. */
  function FlatMapping<T>(m: Mapping<T>): (r: seq<T>)
  {
    match m
    case ADict(o) => Concat(Items(o))
    case Pairs(ps) => Concat(ps)
  }

  /** For a dictionary the result alternates key and value, in item order;
      for an iterable of pairs it alternates first and second element. */
  lemma FlatMappingPairs<T>(m: Mapping<T>)
    requires m.Pairs? ==> AllPairs(m.pairs)
    ensures m.ADict? ==> (
      && |FlatMapping(m)| == 2 * |m.entries|
      && forall i :: 0 <= i < |m.entries| ==>
        FlatMapping(m)[2 * i] == m.entries[i].key && FlatMapping(m)[2 * i + 1] == m.entries[i].value)
    ensures m.Pairs? ==> (
      && |FlatMapping(m)| == 2 * |m.pairs|
      && forall i :: 0 <= i < |m.pairs| ==>
        FlatMapping(m)[2 * i] == m.pairs[i][0] && FlatMapping(m)[2 * i + 1] == m.pairs[i][1])
  {
    match m
    case ADict(o) =>
      ConcatPairs(Items(o));
    case Pairs(ps) =>
      ConcatPairs(ps);
  }

  /** The argument of `flat2d`: a sized container (a list or tuple, so
      `chain(*iterable)` is used) or an unsized iterable such as a generator
      (so the first two elements of each item are taken). */
  datatype Iterable<T> = Sized(items: seq<seq<T>>) | Streamed(items: seq<seq<T>>)

  /** Python truthiness of the argument: a container is true when non-empty,
      a generator always. */
  predicate IterableTruthy<T>(it: Iterable<T>) {
    it.Streamed? || |it.items| > 0
  }

  /** First and second element of every item, in order. */
  function FirstTwo<T>(items: seq<seq<T>>): (r: seq<T>)
    requires forall i :: 0 <= i < |items| ==> |items[i]| >= 2
    ensures |r| == 2 * |items|
    ensures forall i :: 0 <= i < |items| ==> r[2 * i] == items[i][0] && r[2 * i + 1] == items[i][1]
  {
    if |items| == 0 then []
    else
      var rest := FirstTwo(items[1..]);
      var r := [items[0][0], items[0][1]] + rest;
      forall i | 1 <= i < |items|
        ensures r[2 * i] == items[i][0] && r[2 * i + 1] == items[i][1]
      {
        assert r[2 * i] == rest[2 * (i - 1)] && items[1..][i - 1] == items[i];
        assert r[2 * i + 1] == rest[2 * (i - 1) + 1];
      }
      r
  }

  /** `flat2d(iterable)`; the generator path fails with an `IndexError` on an
      item shorter than two. */
  function Flat2d<T>(it: Iterable<T>): (r: Result<seq<T>>)
    ensures r.Err? <==> it.Streamed? && exists i :: 0 <= i < |it.items| && |it.items[i]| < 2
    ensures r.Err? ==> r.error == IndexError
    ensures it.Sized? ==> r == Ok(Concat(it.items))
    ensures it.Streamed? && r.Ok? ==> |r.value| == 2 * |it.items|
    ensures it.Streamed? && r.Ok? ==> forall i :: 0 <= i < |it.items| ==>
      r.value[2 * i] == it.items[i][0] && r.value[2 * i + 1] == it.items[i][1]
  {
    match it
    case Sized(items) => Ok(Concat(items))
    case Streamed(items) =>
      if forall i :: 0 <= i < |items| ==> |items[i]| >= 2 then Ok(FirstTwo(items)) else Err(IndexError)
  }

  /** On pairs the two paths of `flat2d` agree: chaining the pairs gives the
      same sequence as taking the first two elements of each. */
  lemma Flat2dPathsAgree<T>(items: seq<seq<T>>)
    requires AllPairs(items)
    ensures Flat2d(Sized(items)) == Flat2d(Streamed(items))
  {
    ConcatPairs(items);
    var c, f := Concat(items), FirstTwo(items);
    forall k | 0 <= k < |c|
      ensures c[k] == f[k]
    {
      var i := k / 2;
      assert 0 <= i < |items|;
      if k % 2 == 0 {
        assert k == 2 * i;
        assert c[2 * i] == items[i][0] && f[2 * i] == items[i][0];
      } else {
        assert k == 2 * i + 1;
        assert c[2 * i + 1] == items[i][1] && f[2 * i + 1] == items[i][1];
      }
    }
    assert c == f;
  }

  /** Each dictionary entry as value followed by key, as `_flatzsetdict`
      yields them. */
  function ValueThenKey<T>(o: OMap<T, T>): (r: seq<T>)
    ensures |r| == 2 * |o|
    ensures forall j :: 0 <= j < |o| ==> r[2 * j] == o[j].value && r[2 * j + 1] == o[j].key
  {
    if |o| == 0 then []
    else
      var rest := ValueThenKey(o[1..]);
      var r := [o[0].value, o[0].key] + rest;
      forall j | 1 <= j < |o|
        ensures r[2 * j] == o[j].value && r[2 * j + 1] == o[j].key
      {
        assert r[2 * j] == rest[2 * (j - 1)] && o[1..][j - 1] == o[j];
        assert r[2 * j + 1] == rest[2 * (j - 1) + 1];
      }
      r
  }

  /** `flatzset(iterable, kwargs)`. With neither a truthy iterable nor a
      non-empty `kwargs` the local `c` is never bound and the final
      `tuple(c)` raises. */
  function FlatZset<T>(iterable: Option<Iterable<T>>, kwargs: Option<OMap<T, T>>): (r: Result<seq<T>>)
    ensures var hasIt := iterable.Some? && IterableTruthy(iterable.value);
      var hasKw := kwargs.Some? && |kwargs.value| > 0;
      && (r == Err(UnboundLocal) <==> !hasIt && !hasKw)
      && (!hasIt && hasKw ==> r == Ok(ValueThenKey(kwargs.value)))
      && (hasIt ==> (r.Err? <==> Flat2d(iterable.value).Err?))
      && (hasIt && hasKw && r.Ok? ==> r.value == Flat2d(iterable.value).value + ValueThenKey(kwargs.value))
      && (hasIt && !hasKw && r.Ok? ==> r.value == Flat2d(iterable.value).value)
  {
    if iterable.Some? && IterableTruthy(iterable.value) then
      match Flat2d(iterable.value)
      case Err(e) => Err(e)
      case Ok(c) =>
        if kwargs.Some? && |kwargs.value| > 0 then Ok(c + ValueThenKey(kwargs.value)) else Ok(c)
    else if kwargs.Some? && |kwargs.value| > 0 then Ok(ValueThenKey(kwargs.value))
    else Err(UnboundLocal)
  }

  /** On a list of pairs, `flatzset` lays the pairs out in order and then each
      keyword entry as value followed by key. */
  lemma FlatZsetLayout<T>(items: seq<seq<T>>, kwargs: OMap<T, T>)
    requires 0 < |items|
    requires AllPairs(items)
    ensures FlatZset(Some(Sized(items)), Some(kwargs)).Ok?
    ensures var r := FlatZset(Some(Sized(items)), Some(kwargs)).value;
      && |r| == 2 * |items| + 2 * |kwargs|
      && (forall i :: 0 <= i < |items| ==> r[2 * i] == items[i][0] && r[2 * i + 1] == items[i][1])
      && (forall j :: 0 <= j < |kwargs| ==>
            r[2 * |items| + 2 * j] == kwargs[j].value && r[2 * |items| + 2 * j + 1] == kwargs[j].key)
  {
    ConcatPairs(items);
    var r := FlatZset(Some(Sized(items)), Some(kwargs)).value;
    var c := Concat(items);
    if |kwargs| > 0 {
      assert r == c + ValueThenKey(kwargs);
    } else {
      assert r == c;
    }
  }
}

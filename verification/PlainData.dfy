/** `PlainData` (stdsc/stdsc_plaindata.hpp): vectors printed to and read back from a text
    stream. */
module PlainData {
  import opened Bytes

  const SIZE_LIMIT := 0x1_0000_0000_0000_0000

  /** The whitespace that a formatted extraction skips. */
  predicate IsSpace(ch: char) {
    ch == ' ' || '\t' <= ch <= '\r'
  }

  ghost predicate AllSpace(s: string) {
    forall k :: 0 <= k < |s| ==> IsSpace(s[k])
  }

  // ---- decimal numbers ---------------------------------------------------------------

  predicate IsDigit(ch: char) {
    '0' <= ch <= '9'
  }

  function Digit(n: nat): (ch: char)
    requires n < 10
    ensures IsDigit(ch)
  {
    (n + '0' as int) as char
  }

  /** What `os << n` prints. */
  function Digits(n: nat): (s: string)
    ensures s != [] && forall k :: 0 <= k < |s| ==> IsDigit(s[k])
  {
    if n < 10 then [Digit(n)] else Digits(n / 10) + [Digit(n % 10)]
  }

  /** The number that a run of digits denotes. */
  function Number(s: string): nat {
    if s == [] then 0
    else
      var last := s[|s| - 1];
      10 * Number(s[..|s| - 1]) + (if IsDigit(last) then last as int - '0' as int else 0)
  }

  /** Printing and parsing are inverse, and no digit is wasted. */
  lemma {:induction false} NumberOfDigits(n: nat)
    ensures Number(Digits(n)) == n
    ensures n > 0 ==> Digits(n)[0] != '0'
  {
    if n >= 10 {
      NumberOfDigits(n / 10);
      assert Digits(n)[..|Digits(n)| - 1] == Digits(n / 10);
    } else {
      assert Digits(n)[..0] == [];
    }
  }

  function Ten(k: nat): nat {
    if k == 0 then 1 else 10 * Ten(k - 1)
  }

  lemma TimesTen(d: nat, n: nat)
    ensures d * (10 * n) == 10 * (d * n)
  {
  }

  /** A digit counts ten times as often as there are digits behind it. */
  lemma {:induction false} FirstDigitCounts(d: nat, s: string)
    requires d < 10 && forall k :: 0 <= k < |s| ==> IsDigit(s[k])
    ensures Number([Digit(d)] + s) == d * Ten(|s|) + Number(s)
  {
    var t := [Digit(d)] + s;
    if s == [] {
      assert t[..0] == [];
    } else {
      var init := s[..|s| - 1];
      FirstDigitCounts(d, init);
      assert t[..|t| - 1] == [Digit(d)] + init;
      TimesTen(d, Ten(|init|));
    }
  }

  // ---- elements ----------------------------------------------------------------------

  /** How a type is printed and extracted: an extraction takes the longest run of characters
      that the type accepts, at the start of the run or inside it, and converts it. */
  datatype Codec<!T> = Codec(show: T -> string, accepts: (bool, char) -> bool, read: string -> Option<T>)

  /** The codec stops at whitespace, and the token it prints for `v` denotes `v`. */
  ghost predicate Prints<T>(c: Codec<T>, v: T) {
    && (forall start, ch :: IsSpace(ch) ==> !c.accepts(start, ch))
    && c.show(v) != []
    && (forall k :: 0 <= k < |c.show(v)| ==> c.accepts(k == 0, c.show(v)[k]))
    && c.read(c.show(v)) == Some(v)
  }

  predicate IsSign(ch: char) {
    ch == '+' || ch == '-'
  }

  /** The number that a run of digits with or without a sign denotes in an unsigned type with
      `limit` values: a minus sign wraps around, a number out of range is an error. */
  function ReadUnsigned(limit: nat, s: string): Option<nat> {
    var digits := if s != [] && IsSign(s[0]) then s[1..] else s;
    if digits == [] || Number(digits) >= limit then None
    else Some(if s[0] == '-' && Number(digits) > 0 then limit - Number(digits) else Number(digits))
  }

  function Unsigned(limit: nat): Codec<nat> {
    Codec(Digits, (start, ch) => IsDigit(ch) || (start && IsSign(ch)), s => ReadUnsigned(limit, s))
  }

  lemma UnsignedPrints(limit: nat, n: nat)
    requires n < limit
    ensures Prints(Unsigned(limit), n)
  {
    NumberOfDigits(n);
    assert IsDigit(Digits(n)[0]);
    forall start: bool, ch | IsSpace(ch) ensures !Unsigned(limit).accepts(start, ch) {
      assert !IsDigit(ch) && !IsSign(ch);
    }
  }

  /** The whitespace of the "C" locale. */
  lemma SpacesAre(ch: char)
    ensures IsSpace(ch) <==> ch as int in {9, 10, 11, 12, 13, 32}
  {
  }

  /** How signs and numbers out of range are read. */
  lemma SignedNumbers(limit: nat, n: nat)
    ensures ReadUnsigned(limit, Digits(n)) == if n < limit then Some(n) else None
    ensures ReadUnsigned(limit, "+" + Digits(n)) == if n < limit then Some(n) else None
    ensures ReadUnsigned(limit, "-" + Digits(n)) ==
            if n >= limit then None else if n == 0 then Some(0) else Some(limit - n)
  {
    var digits := Digits(n);
    NumberOfDigits(n);
    assert IsDigit(digits[0]);
    SignInFront('+', digits);
    SignInFront('-', digits);
  }

  lemma SignInFront(sign: char, digits: string)
    ensures ([sign] + digits)[0] == sign && ([sign] + digits)[1..] == digits
  {
  }

  /** A sign stands at the start of a number only, and is none by itself. */
  lemma SignsAlone(limit: nat)
    ensures ReadUnsigned(limit, "+") == None && ReadUnsigned(limit, "-") == None
    ensures Unsigned(limit).accepts(true, '-') && Unsigned(limit).accepts(true, '+')
    ensures !Unsigned(limit).accepts(false, '-') && !Unsigned(limit).accepts(false, '+')
  {
    SignInFront('+', []);
    SignInFront('-', []);
    assert !IsDigit('+') && !IsDigit('-') && IsSign('+') && IsSign('-');
  }

  // ---- what is saved and what is loaded ----------------------------------------------

  function Lines<T>(c: Codec<T>, v: seq<T>): string {
    if v == [] then [] else c.show(v[0]) + "\n" + Lines(c, v[1..])
  }

  /** Nothing at all for an empty vector. */
  function Saved<T>(c: Codec<T>, v: seq<T>): string {
    if v == [] then [] else Digits(|v|) + "\n" + Lines(c, v)
  }

  function SkipSpace(s: string): (r: string)
    ensures |r| <= |s|
    ensures r == [] || !IsSpace(r[0])
  {
    if s == [] || !IsSpace(s[0]) then s else SkipSpace(s[1..])
  }

  function RunLength(accepts: (bool, char) -> bool, start: bool, s: string): (n: nat)
    ensures n <= |s|
  {
    if s == [] || !accepts(start, s[0]) then 0 else 1 + RunLength(accepts, false, s[1..])
  }

  /** `is >> v` on a good stream: the value and the rest of the stream, or None for a stream
      that fails. */
  function Extract<T>(c: Codec<T>, s: string): Option<(T, string)> {
    var t := SkipSpace(s);
    var n := RunLength(c.accepts, true, t);
    if n == 0 then None
    else
      match c.read(t[..n])
      case None => None
      case Some(v) => Some((v, t[n..]))
  }

  function Elements<T>(c: Codec<T>, s: string, n: nat): Option<(seq<T>, string)>
    decreases n
  {
    if n == 0 then Some(([], s))
    else
      match Extract(c, s)
      case None => None
      case Some(first) =>
        match Elements(c, first.1, n - 1)
        case None => None
        case Some(others) => Some(([first.0] + others.0, others.1))
  }

  /** A partial result with what remains to be read put behind it. */
  ghost function Behind<T>(done: seq<T>, others: Option<(seq<T>, string)>): Option<(seq<T>, string)> {
    match others
    case None => None
    case Some(r) => Some((done + r.0, r.1))
  }

  lemma BehindNothing<T>(others: Option<(seq<T>, string)>)
    ensures Behind([], others) == others
  {
    if others.Some? {
      assert [] + others.value.0 == others.value.0;
    }
  }

  lemma OneMoreElement<T>(c: Codec<T>, done: seq<T>, s: string, n: nat)
    requires 0 < n
    ensures Behind(done, Elements(c, s, n)) ==
            match Extract(c, s)
            case None => None
            case Some(r) => Behind(done + [r.0], Elements(c, r.1, n - 1))
  {
    match Extract(c, s)
    case None =>
    case Some(r) =>
      match Elements(c, r.1, n - 1)
      case None =>
      case Some(others) =>
        assert done + ([r.0] + others.0) == done + [r.0] + others.0;
  }

  function Loaded<T>(c: Codec<T>, s: string): Option<(seq<T>, string)> {
    match Extract(Unsigned(SIZE_LIMIT), s)
    case None => None
    case Some(size) => Elements(c, size.1, size.0)
  }

  lemma {:induction false} LinesSnoc<T>(c: Codec<T>, v: seq<T>, i: nat)
    requires i < |v|
    ensures Lines(c, v[..i + 1]) == Lines(c, v[..i]) + c.show(v[i]) + "\n"
  {
    assert v[..i + 1][1..] == v[1..][..i];
    if i == 0 {
      assert Lines(c, v[..1]) == c.show(v[0]) + "\n" + [];
    } else {
      LinesSnoc(c, v[1..], i - 1);
      assert v[..i][1..] == v[1..][..i - 1];
    }
  }

  /** What a vector looks like on the stream: its lines are the size and then the elements. */
  lemma {:induction false} SavedLines<T>(c: Codec<T>, v: seq<T>)
    requires v != []
    ensures Saved(c, v) == Concat(seq(|v| + 1, k requires 0 <= k <= |v| => (if k == 0 then Digits(|v|) else c.show(v[k - 1])) + "\n"))
  {
    var lines := seq(|v| + 1, k requires 0 <= k <= |v| => (if k == 0 then Digits(|v|) else c.show(v[k - 1])) + "\n");
    LinesOf(c, v);
    assert lines[1..] == seq(|v|, k requires 0 <= k < |v| => c.show(v[k]) + "\n");
    assert lines[0] == Digits(|v|) + "\n";
  }

  lemma {:induction false} LinesOf<T>(c: Codec<T>, v: seq<T>)
    ensures Lines(c, v) == Concat(seq(|v|, k requires 0 <= k < |v| => c.show(v[k]) + "\n"))
  {
    if v != [] {
      var lines := seq(|v|, k requires 0 <= k < |v| => c.show(v[k]) + "\n");
      LinesOf(c, v[1..]);
      assert lines[1..] == seq(|v[1..]|, k requires 0 <= k < |v[1..]| => c.show(v[1..][k]) + "\n");
    }
  }

  /** What is loaded has the size that stands in front of it. */
  lemma {:induction false} ElementsSize<T>(c: Codec<T>, s: string, n: nat)
    ensures Elements(c, s, n).Some? ==> |Elements(c, s, n).value.0| == n
    decreases n
  {
    if n > 0 && Extract(c, s).Some? {
      ElementsSize(c, Extract(c, s).value.1, n - 1);
    }
  }

  // ---- the operations ----------------------------------------------------------------

  class OutStream {
    var text: string

    constructor ()
      ensures text == []
    {
      text := [];
    }

    method Put(s: string)
      modifies this
      ensures text == old(text) + s
    {
      text := text + s;
    }
  }

  class InStream {
    var rest: string
    var good: bool

    constructor (text: string)
      ensures rest == text && good
    {
      rest, good := text, true;
    }

    /** A failed extraction makes the stream bad for good. The variable is then not known to
        hold anything: `v` is any value of its type. */
    method Get<T>(c: Codec<T>, any: T) returns (v: T)
      modifies this
      ensures match if old(good) then Extract(c, old(rest)) else None
              case None => !good && v == any
              case Some(r) => good && v == r.0 && rest == r.1
    {
      v := any;
      if good {
        match Extract(c, rest)
        case None =>
          good := false;
        case Some(r) =>
          v := r.0;
          rest := r.1;
      }
    }
  }

  class PlainData<T(0)> {
    var vec: seq<T>

    constructor (vec: seq<T>)
      ensures this.vec == vec
    {
      this.vec := vec;
    }

    method SaveToStream(c: Codec<T>, output: OutStream)
      modifies output
      ensures output.text == old(output.text) + Saved(c, vec)
    {
      if |vec| == 0 {
        return;
      }
      output.Put(Digits(|vec|) + "\n");
      for i := 0 to |vec|
        invariant output.text == old(output.text) + Digits(|vec|) + "\n" + Lines(c, vec[..i])
      {
        LinesSnoc(c, vec, i);
        output.Put(c.show(vec[i]) + "\n");
      }
      assert vec[..|vec|] == vec;
    }

    /** The size decides how many elements the vector gets, even when some of them cannot be
        read. */
    method LoadFromStream(c: Codec<T>, input: InStream)
      modifies this, input
      ensures match if old(input.good) then Loaded(c, old(input.rest)) else None
              case None => !input.good
              case Some(r) => input.good && vec == r.0 && input.rest == r.1
      ensures old(input.good) ==>
        match Extract(Unsigned(SIZE_LIMIT), old(input.rest))
        case None => true
        case Some(size) => |vec| == size.0
    {
      var anySize: nat := *;
      var sz := input.Get(Unsigned(SIZE_LIMIT), anySize);
      vec := [];
      LoadElements(c, input, sz);
    }

    /** The loop of `load_from_stream`. */
    method LoadElements(c: Codec<T>, input: InStream, sz: nat)
      requires vec == []
      modifies this, input
      ensures |vec| == sz
      ensures match if old(input.good) then Elements(c, old(input.rest), sz) else None
              case None => !input.good
              case Some(r) => input.good && vec == r.0 && input.rest == r.1
    {
      ghost var all := if input.good then Elements(c, input.rest, sz) else None;
      BehindNothing(all);
      for i := 0 to sz
        invariant |vec| == i
        invariant all == Behind(vec, if input.good then Elements(c, input.rest, sz - i) else None)
      {
        OneMoreElement(c, vec, input.rest, sz - i);
        var any: T := *;
        var v := input.Get(c, any);
        vec := vec + [v];
      }
    }
  }

  // ---- round trips -------------------------------------------------------------------

  lemma {:induction false} SkipAll(ws: string, s: string)
    requires AllSpace(ws) && (s == [] || !IsSpace(s[0]))
    ensures SkipSpace(ws + s) == s
  {
    if ws == [] {
      assert ws + s == s;
    } else {
      assert (ws + s)[1..] == ws[1..] + s;
      SkipAll(ws[1..], s);
    }
  }

  lemma {:induction false} RunOf(accepts: (bool, char) -> bool, start: bool, t: string, s: string)
    requires forall k :: 0 <= k < |t| ==> accepts(start && k == 0, t[k])
    requires s == [] || !accepts(start && t == [], s[0])
    ensures RunLength(accepts, start, t + s) == |t|
  {
    if t == [] {
      assert t + s == s;
    } else {
      assert (t + s)[1..] == t[1..] + s;
      forall k | 0 <= k < |t[1..]| ensures accepts(false, t[1..][k]) {
        assert t[1..][k] == t[k + 1];
      }
      RunOf(accepts, false, t[1..], s);
    }
  }

  /** What stands on a stream: whitespace, the longest token of a type behind it, and the rest. */
  ghost predicate Token<T>(c: Codec<T>, ws: string, t: string, rest: string) {
    && AllSpace(ws)
    && (t + rest == [] || !IsSpace((t + rest)[0]))
    && (forall k :: 0 <= k < |t| ==> c.accepts(k == 0, t[k]))
    && (rest == [] || !c.accepts(t == [], rest[0]))
  }

  /** An extraction takes the token and nothing else, and fails exactly if there is none or the
      type cannot read it. */
  lemma ExtractToken<T>(c: Codec<T>, ws: string, t: string, rest: string)
    requires Token(c, ws, t, rest)
    ensures Extract(c, ws + t + rest) ==
            if t == [] || c.read(t) == None then None else Some((c.read(t).value, rest))
  {
    Regroup(ws, t, rest);
    SkipAll(ws, t + rest);
    RunOf(c.accepts, true, t, rest);
    assert (t + rest)[..|t|] == t && (t + rest)[|t|..] == rest;
  }

  /** A printed value behind any whitespace is extracted again. */
  lemma ExtractPrinted<T>(c: Codec<T>, ws: string, v: T, rest: string)
    requires AllSpace(ws) && Prints(c, v)
    ensures Extract(c, ws + c.show(v) + "\n" + rest) == Some((v, "\n" + rest))
  {
    var t, s := c.show(v), "\n" + rest;
    assert (t + s)[0] == t[0];
    ExtractToken(c, ws, t, s);
    Regroup(ws + t, "\n", rest);
  }

  /** A vector of values that the codec prints, and of a size that the program can hold. */
  ghost predicate Plain<T>(c: Codec<T>, v: seq<T>) {
    |v| < SIZE_LIMIT && forall k :: 0 <= k < |v| ==> Prints(c, v[k])
  }

  lemma {:induction false} ElementsOfLines<T>(c: Codec<T>, ws: string, v: seq<T>, rest: string)
    requires AllSpace(ws) && forall k :: 0 <= k < |v| ==> Prints(c, v[k])
    ensures Elements(c, ws + Lines(c, v) + rest, |v|) == Some((v, (if v == [] then ws else "\n") + rest))
    decreases |v|
  {
    if v == [] {
      assert ws + Lines(c, v) + rest == ws + rest;
    } else {
      var tail := Lines(c, v[1..]) + rest;
      assert ws + Lines(c, v) + rest == ws + c.show(v[0]) + "\n" + tail;
      ExtractPrinted(c, ws, v[0], tail);
      assert "\n" + tail == "\n" + Lines(c, v[1..]) + rest;
      ElementsOfLines(c, "\n", v[1..], rest);
      assert [v[0]] + v[1..] == v;
    }
  }

  /** Loading what was saved, behind any whitespace, returns the vector and stops right behind
      its last element. */
  lemma SaveThenLoad<T>(c: Codec<T>, ws: string, v: seq<T>, rest: string)
    requires AllSpace(ws) && v != [] && Plain(c, v)
    ensures Loaded(c, ws + Saved(c, v) + rest) == Some((v, "\n" + rest))
  {
    var lines := Lines(c, v) + rest;
    assert ws + Saved(c, v) + rest == ws + Digits(|v|) + "\n" + lines;
    UnsignedPrints(SIZE_LIMIT, |v|);
    ExtractPrinted(Unsigned(SIZE_LIMIT), ws, |v|, lines);
    assert "\n" + lines == "\n" + Lines(c, v) + rest;
    ElementsOfLines(c, "\n", v, rest);
  }

  // ---- several items on one stream ---------------------------------------------------

  function SavedEach<U>(save: U -> string, us: seq<U>): string {
    if us == [] then [] else save(us[0]) + SavedEach(save, us[1..])
  }

  function LoadedEach<U>(load: string -> Option<(U, string)>, s: string, n: nat): Option<seq<U>>
    decreases n
  {
    if n == 0 then Some([])
    else
      match load(s)
      case None => None
      case Some(first) => InFront(first.0, LoadedEach(load, first.1, n - 1))
  }

  function InFront<U>(u: U, others: Option<seq<U>>): Option<seq<U>> {
    match others
    case None => None
    case Some(us) => Some([u] + us)
  }

  /** An item that is not written at all, or that a load returns from behind any whitespace. */
  ghost predicate Restores<U>(save: U -> string, load: string -> Option<(U, string)>, u: U) {
    save(u) == [] || forall ws, rest: string :: AllSpace(ws) ==> load(ws + save(u) + rest) == Some((u, "\n" + rest))
  }

  /** Whitespace holds no item. */
  ghost predicate NeedsText<U>(load: string -> Option<(U, string)>) {
    forall ws: string :: AllSpace(ws) ==> load(ws) == None
  }

  /** The items that leave something on the stream. */
  function Written<U>(save: U -> string, us: seq<U>): seq<U> {
    if us == [] then [] else (if save(us[0]) == [] then [] else [us[0]]) + Written(save, us[1..])
  }

  function Taken<U>(us: seq<U>, n: nat): Option<seq<U>> {
    if n <= |us| then Some(us[..n]) else None
  }

  lemma TakenFirst<U>(u: U, us: seq<U>, n: nat)
    requires 0 < n
    ensures Taken([u] + us, n) == InFront(u, Taken(us, n - 1))
  {
    if n <= |[u] + us| {
      assert ([u] + us)[..n] == [u] + us[..n - 1];
    }
  }

  /** Exactly the items that were written come back, in order, and there is nothing to load
      behind them: `n` loads return the first `n` of them, or fail if there are fewer. */
  lemma {:induction false} LoadsAreWritten<U>(save: U -> string, load: string -> Option<(U, string)>,
                                              ws: string, us: seq<U>, n: nat)
    requires AllSpace(ws) && NeedsText(load)
    requires forall i :: 0 <= i < |us| ==> Restores(save, load, us[i])
    ensures LoadedEach(load, ws + SavedEach(save, us), n) == Taken(Written(save, us), n)
    decreases |us|
  {
    if n == 0 {
    } else if us == [] {
      assert ws + SavedEach(save, us) == ws;
    } else {
      var rest := SavedEach(save, us[1..]);
      if save(us[0]) == [] {
        assert SavedEach(save, us) == rest;
        LoadsAreWritten(save, load, ws, us[1..], n);
        assert Written(save, us) == Written(save, us[1..]);
      } else {
        assert ws + SavedEach(save, us) == ws + save(us[0]) + rest;
        LoadsAreWritten(save, load, "\n", us[1..], n - 1);
        TakenFirst(us[0], Written(save, us[1..]), n);
      }
    }
  }

  lemma {:induction false} WrittenIsAll<U>(save: U -> string, us: seq<U>)
    ensures |Written(save, us)| <= |us|
    ensures |Written(save, us)| == |us| <==> forall i :: 0 <= i < |us| ==> save(us[i]) != []
    ensures |Written(save, us)| == |us| ==> Written(save, us) == us
  {
    if us != [] {
      WrittenIsAll(save, us[1..]);
      assert us == [us[0]] + us[1..];
      assert (forall i :: 0 <= i < |us| ==> save(us[i]) != []) ==>
        forall i :: 0 <= i < |us[1..]| ==> save(us[1..][i]) != [];
    }
  }

  /** All items come back if and only if all of them were written. */
  lemma EachComesBack<U>(save: U -> string, load: string -> Option<(U, string)>, us: seq<U>)
    requires NeedsText(load)
    requires forall i :: 0 <= i < |us| ==> Restores(save, load, us[i])
    ensures LoadedEach(load, SavedEach(save, us), |us|) == Some(us) <==> forall i :: 0 <= i < |us| ==> save(us[i]) != []
  {
    LoadsAreWritten(save, load, "", us, |us|);
    assert "" + SavedEach(save, us) == SavedEach(save, us);
    WrittenIsAll(save, us);
    assert us[..|us|] == us;
  }

  // ---- several vectors ---------------------------------------------------------------

  lemma VectorRestores<T>(c: Codec<T>, v: seq<T>)
    requires Plain(c, v)
    ensures Restores(u => Saved(c, u), s => Loaded(c, s), v)
    ensures Saved(c, v) == [] <==> v == []
  {
    if v != [] {
      forall ws, rest: string | AllSpace(ws) ensures Loaded(c, ws + Saved(c, v) + rest) == Some((v, "\n" + rest)) {
        SaveThenLoad(c, ws, v, rest);
      }
    }
  }

  lemma LoadNeedsText<T>(c: Codec<T>)
    ensures NeedsText((s: string) => Loaded(c, s))
  {
    forall ws: string | AllSpace(ws) ensures Loaded(c, ws) == None {
      SkipAll(ws, []);
      assert ws + [] == ws;
    }
  }

  /** k saves followed by k loads give the k vectors back if and only if none is empty. */
  lemma RoundTrip<T>(c: Codec<T>, vs: seq<seq<T>>)
    requires forall i :: 0 <= i < |vs| ==> Plain(c, vs[i])
    ensures LoadedEach(s => Loaded(c, s), SavedEach(v => Saved(c, v), vs), |vs|) == Some(vs) <==>
            forall i :: 0 <= i < |vs| ==> vs[i] != []
  {
    var save, load := (v: seq<T>) => Saved(c, v), (s: string) => Loaded(c, s);
    forall i | 0 <= i < |vs| ensures Restores(save, load, vs[i]) && (save(vs[i]) == [] <==> vs[i] == []) {
      VectorRestores(c, vs[i]);
    }
    LoadNeedsText(c);
    EachComesBack(save, load, vs);
  }

  /** In particular for vectors of unsigned integers of any width. */
  lemma UnsignedRoundTrip(limit: nat, vs: seq<seq<nat>>)
    requires forall i :: 0 <= i < |vs| ==> |vs[i]| < SIZE_LIMIT && forall k :: 0 <= k < |vs[i]| ==> vs[i][k] < limit
    ensures var c := Unsigned(limit);
      LoadedEach(s => Loaded(c, s), SavedEach(v => Saved(c, v), vs), |vs|) == Some(vs) <==>
      forall i :: 0 <= i < |vs| ==> vs[i] != []
  {
    forall i | 0 <= i < |vs| ensures Plain(Unsigned(limit), vs[i]) {
      forall k | 0 <= k < |vs[i]| ensures Prints(Unsigned(limit), vs[i][k]) {
        UnsignedPrints(limit, vs[i][k]);
      }
    }
    RoundTrip(Unsigned(limit), vs);
  }
}

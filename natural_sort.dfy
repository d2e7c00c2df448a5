/**
 * `alphanum_sort`: the natural-order sort used on a chapter's directory listing.
 * A name is split into alternating text and digit runs (`re.split('([0-9]+)', name)`),
 * digit runs become integers and text runs are lower-cased, and names are ordered
 * by comparing these token lists lexicographically with a stable sort.
 */
module NaturalSort {
  import opened PyStr

  /** One element of the sort key: a lower-cased text run or the value of a digit run. */
  datatype Token = Text(text: string) | Num(value: nat)

  function Concat(parts: seq<string>): string
  {
    if parts == [] then [] else parts[0] + Concat(parts[1..])
  }

  lemma ConcatCons(a: string, parts: seq<string>)
    ensures Concat([a] + parts) == a + Concat(parts)
  {
    assert ([a] + parts)[1..] == parts;
  }

  /**
   * What `re.split('([0-9]+)', s)` returns, described without computing it:
   * an odd number of parts, text runs free of digits at even positions, maximal
   * digit runs at odd positions (so the text between two of them is never empty).
   */
  ghost predicate IsRunSplit(parts: seq<string>)
  {
    && |parts| % 2 == 1
    && (forall i :: 0 <= i < |parts| && i % 2 == 0 ==> NoDigits(parts[i]))
    && (forall i :: 0 <= i < |parts| && i % 2 == 1 ==> IsDigitString(parts[i]))
    && (forall i :: 0 < i < |parts| - 1 && i % 2 == 0 ==> parts[i] != [])
  }

  /** One step of the split, scanning right to left: the split of `[c] + t` from the split of `t`. */
  function PushChar(c: char, rest: seq<string>): seq<string>
    requires |rest| > 0
  {
    if !IsDigit(c) then [[c] + rest[0]] + rest[1..]
    else if |rest| > 1 && rest[0] == "" then ["", [c] + rest[1]] + rest[2..]
    else ["", [c]] + rest
  }

  /** `re.split('([0-9]+)', s)` */
  function Split(s: string): (parts: seq<string>)
    ensures |parts| > 0
    decreases |s|
  {
    if s == [] then [""] else PushChar(s[0], Split(s[1..]))
  }

  lemma PushTextSound(c: char, rest: seq<string>)
    requires IsRunSplit(rest) && !IsDigit(c)
    ensures IsRunSplit(PushChar(c, rest))
  {
    var parts := PushChar(c, rest);
    assert |parts| == |rest|;
    forall i | 0 <= i < |parts| && i % 2 == 0
      ensures NoDigits(parts[i])
    {
      if i > 0 {
        assert parts[i] == rest[i];
      }
    }
    forall i | 0 <= i < |parts| && i % 2 == 1
      ensures IsDigitString(parts[i])
    {
      assert parts[i] == rest[i];
    }
    forall i | 0 < i < |parts| - 1 && i % 2 == 0
      ensures parts[i] != []
    {
      assert parts[i] == rest[i];
    }
  }

  lemma PushDigitMergeSound(c: char, rest: seq<string>)
    requires IsRunSplit(rest) && IsDigit(c) && |rest| > 1 && rest[0] == ""
    ensures IsRunSplit(PushChar(c, rest))
  {
    var parts := PushChar(c, rest);
    assert |parts| == |rest|;
    forall i | 0 <= i < |parts| && i % 2 == 0
      ensures NoDigits(parts[i])
    {
      if i > 0 {
        assert parts[i] == rest[i];
      }
    }
    forall i | 0 <= i < |parts| && i % 2 == 1
      ensures IsDigitString(parts[i])
    {
      if i > 1 {
        assert parts[i] == rest[i];
      } else {
        assert IsDigitString(rest[1]);
      }
    }
    forall i | 0 < i < |parts| - 1 && i % 2 == 0
      ensures parts[i] != []
    {
      assert parts[i] == rest[i];
    }
  }

  lemma PushDigitNewSound(c: char, rest: seq<string>)
    requires IsRunSplit(rest) && IsDigit(c) && !(|rest| > 1 && rest[0] == "")
    ensures IsRunSplit(PushChar(c, rest))
  {
    var parts := PushChar(c, rest);
    assert |parts| == |rest| + 2;
    forall i | 0 <= i < |parts| && i % 2 == 0
      ensures NoDigits(parts[i])
    {
      if i > 0 {
        assert parts[i] == rest[i - 2];
      }
    }
    forall i | 0 <= i < |parts| && i % 2 == 1
      ensures IsDigitString(parts[i])
    {
      if i > 1 {
        assert parts[i] == rest[i - 2];
      }
    }
    forall i | 0 < i < |parts| - 1 && i % 2 == 0
      ensures parts[i] != []
    {
      assert parts[i] == rest[i - 2];
    }
  }

  lemma ConcatPrependChar(c: char, first: string, tail: seq<string>)
    ensures Concat([[c] + first] + tail) == [c] + Concat([first] + tail)
  {
    assert ([[c] + first] + tail)[1..] == tail;
    assert ([first] + tail)[1..] == tail;
  }

  lemma PushTextConcat(c: char, rest: seq<string>)
    requires |rest| > 0 && !IsDigit(c)
    ensures Concat(PushChar(c, rest)) == [c] + Concat(rest)
  {
    assert PushChar(c, rest) == [[c] + rest[0]] + rest[1..];
    ConcatPrependChar(c, rest[0], rest[1..]);
    assert rest == [rest[0]] + rest[1..];
  }

  lemma ConcatEmptyHead(tail: seq<string>)
    ensures Concat([""] + tail) == Concat(tail)
  {
    assert ([""] + tail)[1..] == tail;
  }

  lemma PushDigitMergeShape(c: char, rest: seq<string>)
    requires |rest| > 1 && rest[0] == "" && IsDigit(c)
    ensures rest == [""] + ([rest[1]] + rest[2..])
    ensures PushChar(c, rest) == [""] + ([[c] + rest[1]] + rest[2..])
  {
    assert rest == [rest[0]] + ([rest[1]] + rest[2..]);
  }

  lemma PushDigitMergeConcat(c: char, rest: seq<string>)
    requires |rest| > 1 && rest[0] == "" && IsDigit(c)
    ensures Concat(PushChar(c, rest)) == [c] + Concat(rest)
  {
    var tail := rest[2..];
    PushDigitMergeShape(c, rest);
    ConcatEmptyHead([rest[1]] + tail);
    ConcatEmptyHead([[c] + rest[1]] + tail);
    ConcatPrependChar(c, rest[1], tail);
  }

  lemma PushDigitNewConcat(c: char, rest: seq<string>)
    requires |rest| > 0 && IsDigit(c) && !(|rest| > 1 && rest[0] == "")
    ensures Concat(PushChar(c, rest)) == [c] + Concat(rest)
  {
    assert PushChar(c, rest) == [""] + ([[c]] + rest);
    ConcatCons("", [[c]] + rest);
    ConcatCons([c], rest);
  }

  lemma PushCharConcat(c: char, rest: seq<string>)
    requires |rest| > 0
    ensures Concat(PushChar(c, rest)) == [c] + Concat(rest)
  {
    if !IsDigit(c) {
      PushTextConcat(c, rest);
    } else if |rest| > 1 && rest[0] == "" {
      PushDigitMergeConcat(c, rest);
    } else {
      PushDigitNewConcat(c, rest);
    }
  }

  lemma PushCharSound(c: char, rest: seq<string>)
    requires IsRunSplit(rest)
    ensures IsRunSplit(PushChar(c, rest))
    ensures Concat(PushChar(c, rest)) == [c] + Concat(rest)
  {
    PushCharConcat(c, rest);
    if !IsDigit(c) {
      PushTextSound(c, rest);
    } else if |rest| > 1 && rest[0] == "" {
      PushDigitMergeSound(c, rest);
    } else {
      PushDigitNewSound(c, rest);
    }
  }

  /** `Split(s)` is a run split of `s`, and its parts put together give back `s`. */
  lemma {:induction false} SplitSound(s: string)
    ensures IsRunSplit(Split(s))
    ensures Concat(Split(s)) == s
    decreases |s|
  {
    if s != [] {
      SplitSound(s[1..]);
      PushCharSound(s[0], Split(s[1..]));
      assert [s[0]] + s[1..] == s;
    }
  }

  lemma RunSplitDropText(parts: seq<string>)
    requires IsRunSplit(parts) && parts[0] != []
    ensures IsRunSplit([parts[0][1..]] + parts[1..])
  {
    var shorter := [parts[0][1..]] + parts[1..];
    forall i | 0 <= i < |shorter| && i % 2 == 0
      ensures NoDigits(shorter[i])
    {
      if i == 0 {
        assert NoDigits(parts[0]);
      } else {
        assert shorter[i] == parts[i];
      }
    }
    forall i | 0 <= i < |shorter| && i % 2 == 1
      ensures IsDigitString(shorter[i])
    {
      assert shorter[i] == parts[i];
    }
    forall i | 0 < i < |shorter| - 1 && i % 2 == 0
      ensures shorter[i] != []
    {
      assert shorter[i] == parts[i];
    }
  }

  lemma RunSplitDropRun(parts: seq<string>)
    requires IsRunSplit(parts) && |parts| > 2
    ensures IsRunSplit(parts[2..])
  {
    var shorter := parts[2..];
    forall i | 0 <= i < |shorter| && i % 2 == 0
      ensures NoDigits(shorter[i])
    {
      assert shorter[i] == parts[i + 2];
    }
    forall i | 0 <= i < |shorter| && i % 2 == 1
      ensures IsDigitString(shorter[i])
    {
      assert shorter[i] == parts[i + 2];
    }
    forall i | 0 < i < |shorter| - 1 && i % 2 == 0
      ensures shorter[i] != []
    {
      assert shorter[i] == parts[i + 2];
    }
  }

  lemma RunSplitDropDigit(parts: seq<string>)
    requires IsRunSplit(parts) && |parts| > 2 && parts[0] == [] && |parts[1]| > 1
    ensures IsRunSplit(["", parts[1][1..]] + parts[2..])
  {
    var shorter := ["", parts[1][1..]] + parts[2..];
    forall i | 0 <= i < |shorter| && i % 2 == 0
      ensures NoDigits(shorter[i])
    {
      if i > 0 {
        assert shorter[i] == parts[i];
      }
    }
    forall i | 0 <= i < |shorter| && i % 2 == 1
      ensures IsDigitString(shorter[i])
    {
      if i > 1 {
        assert shorter[i] == parts[i];
      } else {
        assert IsDigitString(parts[1]);
      }
    }
    forall i | 0 < i < |shorter| - 1 && i % 2 == 0
      ensures shorter[i] != []
    {
      assert shorter[i] == parts[i];
    }
  }

  /** The first character of a non-empty string decides whether its run split opens with empty text. */
  lemma RunSplitHead(s: string, parts: seq<string>)
    requires IsRunSplit(parts) && Concat(parts) == s && s != []
    ensures parts[0] == [] <==> IsDigit(s[0])
    ensures parts[0] != [] ==> parts[0][0] == s[0]
    ensures parts[0] == [] ==> |parts| > 2 && parts[1][0] == s[0]
  {
    assert parts == [parts[0]] + parts[1..];
    ConcatCons(parts[0], parts[1..]);
    if parts[0] == [] {
      if |parts| == 1 {
        assert false;
      }
      assert parts[1..] == [parts[1]] + parts[2..];
      ConcatCons(parts[1], parts[2..]);
      assert IsDigitString(parts[1]);
    } else {
      assert NoDigits(parts[0]);
    }
  }

  /** A split opening with text loses the text's first character. */
  lemma UnpushText(s: string, parts: seq<string>) returns (shorter: seq<string>)
    requires IsRunSplit(parts) && Concat(parts) == s && s != [] && parts[0] != []
    requires parts[0][0] == s[0]
    ensures IsRunSplit(shorter) && Concat(shorter) == s[1..]
    ensures parts == PushChar(s[0], shorter)
  {
    shorter := [parts[0][1..]] + parts[1..];
    RunSplitDropText(parts);
    assert parts[0] == [s[0]] + parts[0][1..];
    ConcatPrependChar(s[0], parts[0][1..], parts[1..]);
    assert s == [s[0]] + s[1..];
  }

  /** A split opening with a one-digit run loses that run and the empty text before it. */
  lemma UnpushSingleDigit(s: string, parts: seq<string>) returns (shorter: seq<string>)
    requires IsRunSplit(parts) && Concat(parts) == s && s != []
    requires parts[0] == [] && |parts| > 2 && parts[1][0] == s[0] && |parts[1]| == 1
    ensures IsRunSplit(shorter) && Concat(shorter) == s[1..]
    ensures parts == PushChar(s[0], shorter)
  {
    shorter := parts[2..];
    RunSplitDropRun(parts);
    assert parts[1] == [s[0]];
    assert parts == [""] + ([[s[0]]] + shorter);
    ConcatEmptyHead([[s[0]]] + shorter);
    ConcatCons([s[0]], shorter);
    if |parts| > 3 {
      assert parts[2] != [];
    }
    assert s == [s[0]] + s[1..];
  }

  /** A split opening with a longer digit run loses the run's first digit. */
  lemma UnpushDigit(s: string, parts: seq<string>) returns (shorter: seq<string>)
    requires IsRunSplit(parts) && Concat(parts) == s && s != []
    requires parts[0] == [] && |parts| > 2 && parts[1][0] == s[0] && |parts[1]| > 1
    ensures IsRunSplit(shorter) && Concat(shorter) == s[1..]
    ensures parts == PushChar(s[0], shorter)
  {
    var digits := parts[1][1..];
    shorter := ["", digits] + parts[2..];
    RunSplitDropDigit(parts);
    assert parts[1] == [s[0]] + digits;
    assert parts == [""] + ([[s[0]] + digits] + parts[2..]);
    assert shorter == [""] + ([digits] + parts[2..]);
    ConcatEmptyHead([[s[0]] + digits] + parts[2..]);
    ConcatEmptyHead([digits] + parts[2..]);
    ConcatPrependChar(s[0], digits, parts[2..]);
    assert s == [s[0]] + s[1..];
  }

  /** The run split of a string is unique, so `Split` is exactly the split `re.split` makes. */
  lemma {:induction false} SplitUnique(s: string, parts: seq<string>)
    requires IsRunSplit(parts) && Concat(parts) == s
    ensures parts == Split(s)
    decreases |s|
  {
    if s == [] {
      if |parts| > 1 {
        assert false;
      }
    } else {
      RunSplitHead(s, parts);
      var shorter;
      if parts[0] != [] {
        shorter := UnpushText(s, parts);
      } else if |parts[1]| == 1 {
        shorter := UnpushSingleDigit(s, parts);
      } else {
        shorter := UnpushDigit(s, parts);
      }
      SplitUnique(s[1..], shorter);
    }
  }

  /** `convert`: a run of digits becomes its integer value, any other run its lower-cased text. */
  function Convert(part: string): Token
  {
    if IsDigitString(part) then Num(DecimalValue(part)) else Text(Lower(part))
  }

  function KeyOf(parts: seq<string>): (key: seq<Token>)
    ensures |key| == |parts|
  {
    if parts == [] then [] else [Convert(parts[0])] + KeyOf(parts[1..])
  }

  /** `alphanum_key`: the runs of the name, each converted. */
  function Key(name: string): seq<Token>
  {
    KeyOf(Split(name))
  }

  /** Every run lower-cased. */
  function LowerParts(parts: seq<string>): seq<string>
  {
    seq(|parts|, i requires 0 <= i < |parts| => Lower(parts[i]))
  }

  lemma {:induction false} LowerConcat(parts: seq<string>)
    ensures Concat(LowerParts(parts)) == Lower(Concat(parts))
    decreases |parts|
  {
    if parts != [] {
      assert LowerParts(parts)[1..] == LowerParts(parts[1..]);
      LowerConcat(parts[1..]);
      LowerAppend(parts[0], Concat(parts[1..]));
    }
  }

  lemma LowerRunSplit(parts: seq<string>)
    requires IsRunSplit(parts)
    ensures IsRunSplit(LowerParts(parts))
  {
    forall i | 0 <= i < |parts|
      ensures NoDigits(LowerParts(parts)[i]) <==> NoDigits(parts[i])
      ensures IsDigitString(LowerParts(parts)[i]) <==> IsDigitString(parts[i])
    {
      LowerKeepsDigits(parts[i]);
    }
  }

  /** Lower-casing a name and then splitting it gives the runs of the name, each lower-cased. */
  lemma SplitLower(s: string)
    ensures Split(Lower(s)) == LowerParts(Split(s))
  {
    SplitSound(s);
    LowerRunSplit(Split(s));
    LowerConcat(Split(s));
    SplitUnique(Lower(s), LowerParts(Split(s)));
  }

  /** `convert` does not see case: digits have none, and text is lower-cased anyway. */
  lemma ConvertLower(part: string)
    ensures Convert(Lower(part)) == Convert(part)
  {
    LowerKeepsDigits(part);
    if IsDigitString(part) {
      LowerNoUpper(part);
    } else {
      LowerIdempotent(part);
    }
  }

  lemma {:induction false} KeyOfLower(parts: seq<string>)
    ensures KeyOf(LowerParts(parts)) == KeyOf(parts)
    decreases |parts|
  {
    if parts != [] {
      assert LowerParts(parts)[1..] == LowerParts(parts[1..]);
      KeyOfLower(parts[1..]);
      ConvertLower(parts[0]);
    }
  }

  /** `alphanum_key` ignores the case of ASCII letters: "Page10" and "page10" get the same key. */
  lemma KeyIgnoresCase(s: string)
    ensures Key(Lower(s)) == Key(s)
  {
    SplitLower(s);
    KeyOfLower(Split(s));
  }

  lemma {:induction false} KeyOfAt(parts: seq<string>, i: nat)
    requires i < |parts|
    ensures |KeyOf(parts)| == |parts| && KeyOf(parts)[i] == Convert(parts[i])
  {
    if i > 0 {
      KeyOfAt(parts[1..], i - 1);
    }
  }

  /**
   * A key starts and ends with text and alternates text and number, so two keys
   * compared position by position never set a number against a text (which in
   * Python would raise TypeError).
   */
  lemma KeyAlternates(name: string)
    ensures |Key(name)| % 2 == 1
    ensures forall i :: 0 <= i < |Key(name)| ==> (Key(name)[i].Num? <==> i % 2 == 1)
  {
    var parts := Split(name);
    SplitSound(name);
    forall i | 0 <= i < |Key(name)|
      ensures Key(name)[i].Num? <==> i % 2 == 1
    {
      KeyOfAt(parts, i);
      if i % 2 == 0 {
        assert NoDigits(parts[i]);
        if parts[i] != [] {
          assert !IsDigit(parts[i][0]);
        }
      } else {
        assert IsDigitString(parts[i]);
      }
    }
    if parts != [] {
      KeyOfAt(parts, 0);
    }
  }

  /** Python's `<` on strings: code-point lexicographic order, a proper prefix first. */
  predicate TextLess(a: string, b: string)
    decreases |a|
  {
    if a == [] || b == [] then a == [] && b != []
    else a[0] < b[0] || (a[0] == b[0] && TextLess(a[1..], b[1..]))
  }

  /**
   * Python's `<` on two key elements. A number set against a text cannot occur
   * between two keys (see `KeysAlign`); it is given a fixed answer only so that
   * the order is total.
   */
  predicate TokenLess(a: Token, b: Token)
  {
    match a
    case Num(x) => (match b case Num(y) => x < y case Text(_) => true)
    case Text(x) => (match b case Text(y) => TextLess(x, y) case Num(_) => false)
  }

  /** Python's `<` on lists: the first differing element decides, a proper prefix comes first. */
  predicate KeyLess(a: seq<Token>, b: seq<Token>)
    decreases |a|
  {
    if a == [] || b == [] then a == [] && b != []
    else TokenLess(a[0], b[0]) || (a[0] == b[0] && KeyLess(a[1..], b[1..]))
  }

  /** Two keys hold the same kind of element at every position they share. */
  lemma KeysAlign(x: string, y: string, i: nat)
    requires i < |Key(x)| && i < |Key(y)|
    ensures Key(x)[i].Num? == Key(y)[i].Num?
  {
    KeyAlternates(x);
    KeyAlternates(y);
  }

  lemma {:induction false} TextLessIrreflexive(a: string)
    ensures !TextLess(a, a)
    decreases |a|
  {
    if a != [] {
      TextLessIrreflexive(a[1..]);
    }
  }

  lemma {:induction false} TextLessTransitive(a: string, b: string, c: string)
    requires TextLess(a, b) && TextLess(b, c)
    ensures TextLess(a, c)
    decreases |a|
  {
    if a != [] && a[0] == b[0] && b[0] == c[0] {
      TextLessTransitive(a[1..], b[1..], c[1..]);
    }
  }

  lemma {:induction false} TextLessTotal(a: string, b: string)
    ensures a == b || TextLess(a, b) || TextLess(b, a)
    decreases |a|
  {
    if a != [] && b != [] && a[0] == b[0] {
      TextLessTotal(a[1..], b[1..]);
      if a[1..] == b[1..] {
        assert a == [a[0]] + a[1..] && b == [b[0]] + b[1..];
      }
    }
  }

  lemma TokenLessIrreflexive(a: Token)
    ensures !TokenLess(a, a)
  {
    if a.Text? {
      TextLessIrreflexive(a.text);
    }
  }

  lemma TokenLessTransitive(a: Token, b: Token, c: Token)
    requires TokenLess(a, b) && TokenLess(b, c)
    ensures TokenLess(a, c)
  {
    if a.Text? && b.Text? && c.Text? {
      TextLessTransitive(a.text, b.text, c.text);
    }
  }

  lemma TokenLessTotal(a: Token, b: Token)
    ensures a == b || TokenLess(a, b) || TokenLess(b, a)
  {
    if a.Text? && b.Text? {
      TextLessTotal(a.text, b.text);
    }
  }

  /** No key is below itself. */
  lemma {:induction false} KeyLessIrreflexive(a: seq<Token>)
    ensures !KeyLess(a, a)
    decreases |a|
  {
    if a != [] {
      TokenLessIrreflexive(a[0]);
      KeyLessIrreflexive(a[1..]);
    }
  }

  /** The key order is transitive. */
  lemma {:induction false} KeyLessTransitive(a: seq<Token>, b: seq<Token>, c: seq<Token>)
    requires KeyLess(a, b) && KeyLess(b, c)
    ensures KeyLess(a, c)
    decreases |a|
  {
    if a != [] && b != [] && c != [] {
      if TokenLess(a[0], b[0]) && TokenLess(b[0], c[0]) {
        TokenLessTransitive(a[0], b[0], c[0]);
      } else if a[0] == b[0] && b[0] == c[0] {
        KeyLessTransitive(a[1..], b[1..], c[1..]);
      }
    }
  }

  /** Any two different keys are ordered one way or the other. */
  lemma {:induction false} KeyLessTotal(a: seq<Token>, b: seq<Token>)
    ensures a == b || KeyLess(a, b) || KeyLess(b, a)
    decreases |a|
  {
    if a != [] && b != [] {
      TokenLessTotal(a[0], b[0]);
      if a[0] == b[0] {
        KeyLessTotal(a[1..], b[1..]);
        if a[1..] == b[1..] {
          assert a == [a[0]] + a[1..] && b == [b[0]] + b[1..];
        }
      }
    }
  }

  /** A sort key, as passed to Python's `sorted(..., key=...)`. */
  type KeyFn = string -> seq<Token>

  /** Under `key`, `x` sorts no later than `y`: the key of `y` is not below the key of `x`. */
  predicate KeyLe(key: KeyFn, x: string, y: string)
  {
    !KeyLess(key(y), key(x))
  }

  lemma KeyLeTransitive(key: KeyFn, x: string, y: string, z: string)
    requires KeyLe(key, x, y) && KeyLe(key, y, z)
    ensures KeyLe(key, x, z)
  {
    if KeyLess(key(z), key(x)) {
      KeyLessTotal(key(z), key(y));
      if KeyLess(key(y), key(z)) {
        KeyLessTransitive(key(y), key(z), key(x));
      }
    }
  }

  lemma KeyLeTotal(key: KeyFn, x: string, y: string)
    ensures KeyLe(key, x, y) || KeyLe(key, y, x)
  {
    KeyLessTotal(key(x), key(y));
    KeyLessIrreflexive(key(x));
    KeyLessIrreflexive(key(y));
    if KeyLess(key(x), key(y)) && KeyLess(key(y), key(x)) {
      KeyLessTransitive(key(x), key(y), key(x));
    }
  }

  /** `<=` both ways means equal keys (as for "01.jpg" and "1.jpg" under `Key`). */
  lemma KeyLeAntisymmetric(key: KeyFn, x: string, y: string)
    requires KeyLe(key, x, y) && KeyLe(key, y, x)
    ensures key(x) == key(y)
  {
    KeyLessTotal(key(x), key(y));
  }

  ghost predicate SortedBy(key: KeyFn, s: seq<string>)
  {
    forall i, j :: 0 <= i < j < |s| ==> KeyLe(key, s[i], s[j])
  }

  /** The names of `s` whose key is `k`, in the order of `s`. */
  function WithKey(key: KeyFn, s: seq<string>, k: seq<Token>): seq<string>
  {
    if s == [] then []
    else (if key(s[0]) == k then [s[0]] else []) + WithKey(key, s[1..], k)
  }

  /** Puts `x` in front of the first name whose key is not below its own. */
  function InsertBy(key: KeyFn, x: string, s: seq<string>): seq<string>
  {
    if s == [] || KeyLe(key, x, s[0]) then [x] + s
    else [s[0]] + InsertBy(key, x, s[1..])
  }

  /** `sorted(names, key=key)`: a stable sort, here by insertion. */
  function SortBy(key: KeyFn, names: seq<string>): seq<string>
  {
    if names == [] then [] else InsertBy(key, names[0], SortBy(key, names[1..]))
  }

  /** `alphanum_sort(names)` */
  function AlphanumSort(names: seq<string>): seq<string>
  {
    SortBy(Key, names)
  }

  lemma {:induction false} InsertByPermutes(key: KeyFn, x: string, s: seq<string>)
    ensures multiset(InsertBy(key, x, s)) == multiset([x] + s)
  {
    if s != [] && !KeyLe(key, x, s[0]) {
      InsertByPermutes(key, x, s[1..]);
      assert s == [s[0]] + s[1..];
    }
  }

  lemma InsertByFront(key: KeyFn, x: string, s: seq<string>)
    requires SortedBy(key, s) && s != [] && KeyLe(key, x, s[0])
    ensures SortedBy(key, [x] + s)
  {
    var r := [x] + s;
    forall i, j | 0 <= i < j < |r|
      ensures KeyLe(key, r[i], r[j])
    {
      if i == 0 {
        if j > 1 {
          KeyLeTransitive(key, x, s[0], s[j - 1]);
        }
      } else {
        assert r[i] == s[i - 1] && r[j] == s[j - 1];
      }
    }
  }

  lemma InsertByBelowAll(key: KeyFn, x: string, s: seq<string>)
    requires SortedBy(key, s) && s != [] && !KeyLe(key, x, s[0])
    ensures forall y :: y in InsertBy(key, x, s[1..]) ==> KeyLe(key, s[0], y)
  {
    var tail := InsertBy(key, x, s[1..]);
    InsertByPermutes(key, x, s[1..]);
    KeyLeTotal(key, x, s[0]);
    forall y | y in tail
      ensures KeyLe(key, s[0], y)
    {
      assert y in multiset(tail);
      if y != x {
        assert y in multiset(s[1..]);
        var k :| 0 <= k < |s[1..]| && s[1..][k] == y;
        assert s[k + 1] == y;
      }
    }
  }

  lemma {:induction false} InsertBySorted(key: KeyFn, x: string, s: seq<string>)
    requires SortedBy(key, s)
    ensures SortedBy(key, InsertBy(key, x, s))
  {
    if s == [] {
    } else if KeyLe(key, x, s[0]) {
      InsertByFront(key, x, s);
    } else {
      var tail := InsertBy(key, x, s[1..]);
      assert SortedBy(key, s[1..]) by {
        forall i, j | 0 <= i < j < |s[1..]|
          ensures KeyLe(key, s[1..][i], s[1..][j])
        {
          assert s[1..][i] == s[i + 1] && s[1..][j] == s[j + 1];
        }
      }
      InsertBySorted(key, x, s[1..]);
      InsertByBelowAll(key, x, s);
      var r := [s[0]] + tail;
      forall i, j | 0 <= i < j < |r|
        ensures KeyLe(key, r[i], r[j])
      {
        if i > 0 {
          assert r[i] == tail[i - 1] && r[j] == tail[j - 1];
        } else {
          assert r[j] == tail[j - 1];
          assert r[j] in tail;
        }
      }
    }
  }

  lemma WithKeyCons(key: KeyFn, y: string, s: seq<string>, k: seq<Token>)
    ensures WithKey(key, [y] + s, k) == (if key(y) == k then [y] else []) + WithKey(key, s, k)
  {
    assert ([y] + s)[1..] == s;
  }

  /** Two adjacent names with different keys can trade places without changing any key group. */
  lemma WithKeySwap(key: KeyFn, a: string, b: string, rest: seq<string>, k: seq<Token>)
    requires key(a) != key(b)
    ensures WithKey(key, [a] + ([b] + rest), k) == WithKey(key, [b] + ([a] + rest), k)
  {
    WithKeyCons(key, a, [b] + rest, k);
    WithKeyCons(key, b, rest, k);
    WithKeyCons(key, b, [a] + rest, k);
    WithKeyCons(key, a, rest, k);
  }

  lemma {:induction false} InsertByStable(key: KeyFn, x: string, s: seq<string>, k: seq<Token>)
    ensures WithKey(key, InsertBy(key, x, s), k) == WithKey(key, [x] + s, k)
  {
    if s != [] && !KeyLe(key, x, s[0]) {
      var tail := InsertBy(key, x, s[1..]);
      assert InsertBy(key, x, s) == [s[0]] + tail;
      InsertByStable(key, x, s[1..], k);
      WithKeyCons(key, s[0], tail, k);
      WithKeyCons(key, s[0], [x] + s[1..], k);
      assert WithKey(key, InsertBy(key, x, s), k) == WithKey(key, [s[0]] + ([x] + s[1..]), k);
      KeyLessIrreflexive(key(x));
      WithKeySwap(key, s[0], x, s[1..], k);
      assert [s[0]] + s[1..] == s;
    }
  }

  /** The sort returns a rearrangement of its input: the same names, each as often. */
  lemma {:induction false} SortByPermutes(key: KeyFn, names: seq<string>)
    ensures multiset(SortBy(key, names)) == multiset(names)
  {
    if names != [] {
      SortByPermutes(key, names[1..]);
      InsertByPermutes(key, names[0], SortBy(key, names[1..]));
      assert names == [names[0]] + names[1..];
    }
  }

  /** The sort returns its names in non-decreasing key order. */
  lemma {:induction false} SortBySorted(key: KeyFn, names: seq<string>)
    ensures SortedBy(key, SortBy(key, names))
  {
    if names != [] {
      SortBySorted(key, names[1..]);
      InsertBySorted(key, names[0], SortBy(key, names[1..]));
    }
  }

  /** The sort is stable: names with equal keys keep the order they had in the input. */
  lemma {:induction false} SortByStable(key: KeyFn, names: seq<string>, k: seq<Token>)
    ensures WithKey(key, SortBy(key, names), k) == WithKey(key, names, k)
  {
    if names != [] {
      SortByStable(key, names[1..], k);
      InsertByStable(key, names[0], SortBy(key, names[1..]), k);
      WithKeyCons(key, names[0], SortBy(key, names[1..]), k);
      WithKeyCons(key, names[0], names[1..], k);
      assert names == [names[0]] + names[1..];
    }
  }

  lemma {:induction false} WithKeyMember(key: KeyFn, s: seq<string>, j: nat)
    requires j < |s|
    ensures s[j] in WithKey(key, s, key(s[j]))
  {
    if j > 0 {
      WithKeyMember(key, s[1..], j - 1);
    }
  }

  lemma {:induction false} WithKeyHasKey(key: KeyFn, s: seq<string>, k: seq<Token>, y: string)
    requires y in WithKey(key, s, k)
    ensures y in s && key(y) == k
  {
    if s != [] && !(key(s[0]) == k && y == s[0]) {
      WithKeyHasKey(key, s[1..], k, y);
    }
  }

  lemma SortedTail(key: KeyFn, s: seq<string>)
    requires SortedBy(key, s) && s != []
    ensures SortedBy(key, s[1..])
  {
    forall i, j | 0 <= i < j < |s[1..]|
      ensures KeyLe(key, s[1..][i], s[1..][j])
    {
      assert s[1..][i] == s[i + 1] && s[1..][j] == s[j + 1];
    }
  }

  lemma SortedHeadLe(key: KeyFn, s: seq<string>, y: string)
    requires SortedBy(key, s) && y in s
    ensures KeyLe(key, s[0], y)
  {
    var j :| 0 <= j < |s| && s[j] == y;
    if j == 0 {
      KeyLessIrreflexive(key(y));
    }
  }

  lemma SortedSameHeadKey(key: KeyFn, a: seq<string>, b: seq<string>)
    requires SortedBy(key, a) && SortedBy(key, b) && a != [] && b != []
    requires forall k :: WithKey(key, a, k) == WithKey(key, b, k)
    ensures key(a[0]) == key(b[0])
  {
    var ka, kb := key(a[0]), key(b[0]);
    WithKeyMember(key, a, 0);
    assert WithKey(key, a, ka) == WithKey(key, b, ka);
    WithKeyHasKey(key, b, ka, a[0]);
    WithKeyMember(key, b, 0);
    assert WithKey(key, a, kb) == WithKey(key, b, kb);
    WithKeyHasKey(key, a, kb, b[0]);
    SortedHeadLe(key, a, b[0]);
    SortedHeadLe(key, b, a[0]);
    KeyLeAntisymmetric(key, a[0], b[0]);
  }

  /** Two sorted sequences with the same names per key start with the same name. */
  lemma SortedSameHead(key: KeyFn, a: seq<string>, b: seq<string>)
    requires SortedBy(key, a) && SortedBy(key, b) && a != [] && b != []
    requires forall k :: WithKey(key, a, k) == WithKey(key, b, k)
    ensures a[0] == b[0]
  {
    SortedSameHeadKey(key, a, b);
    var k := key(a[0]);
    assert WithKey(key, a, k) == WithKey(key, b, k);
    assert WithKey(key, a, k)[0] == a[0];
    assert WithKey(key, b, k)[0] == b[0];
  }

  /**
   * Sortedness and stability pin the result down: two sorted sequences that hold,
   * for every key, the same names in the same order are the same sequence.
   */
  lemma {:induction false} SortedStableUnique(key: KeyFn, a: seq<string>, b: seq<string>)
    requires SortedBy(key, a) && SortedBy(key, b)
    requires forall k :: WithKey(key, a, k) == WithKey(key, b, k)
    ensures a == b
    decreases |a|
  {
    if a == [] && b != [] {
      WithKeyMember(key, b, 0);
      assert false;
    } else if a != [] && b == [] {
      WithKeyMember(key, a, 0);
      assert false;
    } else if a != [] {
      SortedSameHead(key, a, b);
      forall k
        ensures WithKey(key, a[1..], k) == WithKey(key, b[1..], k)
      {
        var h := if key(a[0]) == k then [a[0]] else [];
        assert WithKey(key, a, k) == WithKey(key, b, k);
        assert WithKey(key, a, k) == h + WithKey(key, a[1..], k);
        assert WithKey(key, b, k) == h + WithKey(key, b[1..], k);
        assert WithKey(key, a[1..], k) == WithKey(key, a, k)[|h|..];
        assert WithKey(key, b[1..], k) == WithKey(key, b, k)[|h|..];
      }
      SortedTail(key, a);
      SortedTail(key, b);
      SortedStableUnique(key, a[1..], b[1..]);
      assert a == [a[0]] + a[1..] && b == [b[0]] + b[1..];
    }
  }

  /**
   * `SortBy(key, names)` is the one sequence that is sorted by key and keeps, for
   * every key, the names with that key in input order: what any stable sort, such
   * as Python's `sorted`, returns.
   */
  lemma StableSortUnique(key: KeyFn, names: seq<string>, r: seq<string>)
    requires SortedBy(key, r)
    requires forall k :: WithKey(key, r, k) == WithKey(key, names, k)
    ensures r == SortBy(key, names)
  {
    SortBySorted(key, names);
    forall k
      ensures WithKey(key, r, k) == WithKey(key, SortBy(key, names), k)
    {
      assert WithKey(key, r, k) == WithKey(key, names, k);
      SortByStable(key, names, k);
    }
    SortedStableUnique(key, r, SortBy(key, names));
  }

  /** No two names of `s` share a key unless they are the same name. */
  ghost predicate KeysDistinct(key: KeyFn, s: seq<string>)
  {
    forall i, j :: 0 <= i < |s| && 0 <= j < |s| && key(s[i]) == key(s[j]) ==> s[i] == s[j]
  }

  /** Two sorted rearrangements of names with distinct keys start with the same name. */
  lemma SortedPermutationSameHead(key: KeyFn, a: seq<string>, b: seq<string>)
    requires a != [] && multiset(a) == multiset(b)
    requires SortedBy(key, a) && SortedBy(key, b) && KeysDistinct(key, a)
    ensures b != [] && a[0] == b[0]
  {
    assert a[0] in multiset(b);
    assert b[0] in multiset(a);
    var i :| 0 <= i < |a| && a[i] == b[0];
    SortedHeadLe(key, a, b[0]);
    SortedHeadLe(key, b, a[0]);
    KeyLeAntisymmetric(key, a[0], b[0]);
  }

  lemma KeysDistinctTail(key: KeyFn, s: seq<string>)
    requires KeysDistinct(key, s) && s != []
    ensures KeysDistinct(key, s[1..])
  {
    forall i, j | 0 <= i < |s[1..]| && 0 <= j < |s[1..]| && key(s[1..][i]) == key(s[1..][j])
      ensures s[1..][i] == s[1..][j]
    {
      assert s[1..][i] == s[i + 1] && s[1..][j] == s[j + 1];
    }
  }

  lemma MultisetTail(a: seq<string>, b: seq<string>)
    requires a != [] && b != [] && a[0] == b[0] && multiset(a) == multiset(b)
    ensures multiset(a[1..]) == multiset(b[1..])
  {
    assert a == [a[0]] + a[1..] && b == [b[0]] + b[1..];
    assert multiset(a) == multiset{a[0]} + multiset(a[1..]);
    assert multiset(b) == multiset{b[0]} + multiset(b[1..]);
    assert multiset(a[1..]) == multiset(a) - multiset{a[0]};
    assert multiset(b[1..]) == multiset(b) - multiset{b[0]};
  }

  /**
   * Two sorted rearrangements of the same names are equal when no two different
   * names share a key.
   */
  lemma {:induction false} SortedPermutationUnique(key: KeyFn, a: seq<string>, b: seq<string>)
    requires multiset(a) == multiset(b)
    requires SortedBy(key, a) && SortedBy(key, b) && KeysDistinct(key, a)
    ensures a == b
    decreases |a|
  {
    if a == [] {
      assert |b| == |multiset(b)| == 0;
    } else {
      SortedPermutationSameHead(key, a, b);
      MultisetTail(a, b);
      SortedTail(key, a);
      SortedTail(key, b);
      KeysDistinctTail(key, a);
      SortedPermutationUnique(key, a[1..], b[1..]);
      assert a == [a[0]] + a[1..] && b == [b[0]] + b[1..];
    }
  }
}

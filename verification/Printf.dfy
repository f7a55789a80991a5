/** The formatted printer: one pass over the format collects print items, a second pass prints them. */
module Printf {
  import opened Words
  import opened Numerals

  const MAX_ITEMS := 128

  /** `struct PrintItem`; a zero formatter marks a stretch of the format itself. */
  datatype PrintItem = PrintItem(start: nat, length: nat, formatter: char, large: bool)

  const NUL := 0 as char

  function Stretch(start: nat, length: nat): PrintItem {
    PrintItem(start, length, NUL, false)
  }

  function Directive(formatter: char, large: bool): PrintItem {
    PrintItem(0, 0, formatter, large)
  }

  /** The variable arguments, one 64-bit slot each, and the text at every nonzero address. */
  datatype Arguments = Arguments(slot: nat -> Word, text: Word -> string)

  /** What was written, and how many argument slots were read. */
  datatype Output = Output(text: string, used: nat)

  // ---------------------------------------------------------------- one item

  predicate TakesArgument(formatter: char) {
    formatter in {'s', 'c', 'p', 'x', 'd'}
  }

  /** A number of 32 bits unless the directive is a large one. */
  function Number(w: Word, large: bool): Word {
    if large then w else w % UINT32_LIMIT
  }

  /** What a directive prints for the argument `w`; none when a decimal number is too long to print. */
  function Rendered(formatter: char, large: bool, w: Word, args: Arguments): Option<string> {
    match formatter
    case 's' => Some(if w == 0 then "(null)" else args.text(w))
    case 'c' => Some([(w % 0x100) as char])
    case 'p' => Some(HexText(Number(w, large)))
    case 'x' => Some(HexText(Number(w, large)))
    case 'd' => DecimalText(Number(w, large))
    case _ => Some("<unknown>")
  }

  /** The C value of the argument of a `d` directive: an int, or a 64-bit integer for a large one. */
  function SignedValue(w: Word, large: bool): int {
    var n, limit := Number(w, large), if large then WORD_LIMIT else UINT32_LIMIT;
    if n < limit / 2 then n else n - limit
  }

  /** The number printed for a signed argument reads back as that argument exactly when the argument is not
      negative and, being a large one, has at most 15 digits. */
  lemma SignedRoundTrip(w: Word, large: bool, args: Arguments)
    ensures Rendered('d', large, w, args).Some? <==> Number(w, large) < TEN_16
    ensures Rendered('d', large, w, args).Some? && Atol(Rendered('d', large, w, args).value) == SignedValue(w, large)
            <==> 0 <= SignedValue(w, large) && (large ==> SignedValue(w, large) < TEN_15)
  {
    hide DecimalText, Atol;
    if Number(w, large) < TEN_16 {
      DecimalRoundTrip(Number(w, large));
    } else {
      TooLong(Number(w, large));
    }
  }

  lemma TooLong(n: nat)
    requires n >= TEN_16
    ensures DecimalText(n) == None
  {
  }

  /** The int -1 is printed as 2^32 - 1. */
  lemma MinusOnePrinted(args: Arguments)
    ensures SignedValue(UINT32_LIMIT - 1, false) == -1
    ensures Rendered('d', false, UINT32_LIMIT - 1, args).Some?
    ensures Atol(Rendered('d', false, UINT32_LIMIT - 1, args).value) == UINT32_LIMIT - 1
  {
    DecimalRoundTrip(UINT32_LIMIT - 1);
  }

  /** A printed pointer or hexadecimal number reads back as the argument exactly when the directive is a large one
      or the argument is below 2^32: a plain `p` prints the low half of a pointer. */
  lemma PointerRoundTrip(formatter: char, w: Word, large: bool, args: Arguments)
    requires formatter in {'p', 'x'}
    ensures Rendered(formatter, large, w, args).Some?
    ensures var ds := HexDigitsIn(Rendered(formatter, large, w, args).value);
      ds.Some? && (ValueOf(ds.value, 16) == w <==> large || w < UINT32_LIMIT)
    ensures ValueOf(HexDigitsIn(Rendered(formatter, large, w, args).value).value, 16) == Number(w, large)
  {
    hide HexText, HexDigitsIn, ValueOf;
    HexReadBack(Number(w, large));
  }

  /** The low half of a pointer above 4 GiB. */
  lemma HighPointerPrinted(args: Arguments)
    ensures var text := Rendered('p', false, 0x7fff_0000_1000, args);
      text.Some? && HexDigitsIn(text.value).Some? && ValueOf(HexDigitsIn(text.value).value, 16) == 0x1000
  {
    hide HexText, HexDigitsIn, ValueOf;
    PointerRoundTrip('p', 0x7fff_0000_1000, false, args);
  }

  function AfterDirective(formatter: char, large: bool, args: Arguments, so: Output): Option<Output> {
    match Rendered(formatter, large, args.slot(so.used), args)
    case None => None
    case Some(text) => Some(Output(so.text + text, if TakesArgument(formatter) then so.used + 1 else so.used))
  }

  // ---------------------------------------------------------------- one pass

  /** The directive whose '%' is at `i`: its letter, whether it is large, and where the format goes on; none
      when the format ends before the letter. */
  datatype DirectiveAt = DirectiveAt(formatter: char, large: bool, next: nat)

  function ReadDirective(format: string, i: nat): (d: Option<DirectiveAt>)
    ensures d.Some? ==> i + 2 <= d.value.next <= |format| && d.value.formatter in format
  {
    var large := i + 1 < |format| && format[i + 1] == 'z';
    var letter := if large then i + 2 else i + 1;
    if letter < |format| then Some(DirectiveAt(format[letter], large, letter + 1)) else None
  }

  /** The reference: print every character as it comes, and every directive in its place. */
  function OnePass(format: string, i: nat, args: Arguments, so: Output): Option<Output>
    decreases |format| - i
  {
    if i >= |format| then Some(so)
    else if format[i] != '%' then OnePass(format, i + 1, args, Output(so.text + [format[i]], so.used))
    else
      match ReadDirective(format, i)
      case None => None
      case Some(d) =>
        match AfterDirective(d.formatter, d.large, args, so)
        case None => None
        case Some(then_) => OnePass(format, d.next, args, then_)
  }

  // ---------------------------------------------------------------- what a format means

  /** A piece of a format together with its argument. An int argument is the low half of its slot. */
  datatype Piece =
    | Literal(c: char)
    | NullText
    | Text(address: Word)
    | Character(code: Byte, rest: nat)
    | Int(value: Dword, upper: Dword)
    | Size(number: Word)
    | Hex(half: Dword, above: Dword)
    | LargeHex(word: Word)
    | Unknown(letter: char)

  predicate GoodPiece(p: Piece) {
    match p
    case Literal(c) => c != '%'
    case Text(address) => address != 0
    case Character(code, rest) => code + rest * 0x100 < WORD_LIMIT
    case Unknown(letter) => letter !in "scpxdz"
    case _ => true
  }

  /** How the piece is written. */
  function Written(p: Piece): string {
    match p
    case Literal(c) => [c]
    case NullText => "%s"
    case Text(_) => "%s"
    case Character(_, _) => "%c"
    case Int(_, _) => "%d"
    case Size(_) => "%zd"
    case Hex(_, _) => "%x"
    case LargeHex(_) => "%zp"
    case Unknown(letter) => ['%', letter]
  }

  /** The slots its argument takes. */
  function SlotsOf(p: Piece): seq<Word>
    requires GoodPiece(p)
  {
    match p
    case Literal(_) => []
    case NullText => [0]
    case Text(address) => [address]
    case Character(code, rest) => [code + rest * 0x100]
    case Int(value, upper) => [upper * UINT32_LIMIT + value]
    case Size(number) => [number]
    case Hex(half, above) => [above * UINT32_LIMIT + half]
    case LargeHex(word) => [word]
    case Unknown(_) => []
  }

  /** What it stands for. */
  function Shown(p: Piece, text: Word -> string): Option<string> {
    match p
    case Literal(c) => Some([c])
    case NullText => Some("(null)")
    case Text(address) => Some(text(address))
    case Character(code, _) => Some([code as char])
    case Int(value, _) => DecimalText(value)
    case Size(number) => DecimalText(number)
    case Hex(half, _) => Some(HexText(half))
    case LargeHex(word) => Some(HexText(word))
    case Unknown(_) => Some("<unknown>")
  }

  function WrittenAll(ps: seq<Piece>): string {
    if ps == [] then "" else Written(ps[0]) + WrittenAll(ps[1..])
  }

  function SlotsOfAll(ps: seq<Piece>): seq<Word>
    requires forall p :: p in ps ==> GoodPiece(p)
  {
    if ps == [] then [] else SlotsOf(ps[0]) + SlotsOfAll(ps[1..])
  }

  function ShownAll(ps: seq<Piece>, text: Word -> string): Option<string> {
    if ps == [] then Some("")
    else
      match Shown(ps[0], text)
      case None => None
      case Some(first) =>
        match ShownAll(ps[1..], text)
        case None => None
        case Some(rest) => Some(first + rest)
  }

  function LetterOf(p: Piece): char
    requires !p.Literal?
  {
    Written(p)[|Written(p)| - 1]
  }

  predicate IsLarge(p: Piece) {
    p.Size? || p.LargeHex?
  }

  lemma PieceRead(p: Piece, format: string, i: nat)
    requires GoodPiece(p) && !p.Literal?
    requires i + |Written(p)| <= |format| && format[i..i + |Written(p)|] == Written(p)
    ensures format[i] == '%'
    ensures ReadDirective(format, i) == Some(DirectiveAt(LetterOf(p), IsLarge(p), i + |Written(p)|))
  {
    var w := Written(p);
    assert format[i] == format[i..i + |w|][0] == w[0];
    assert format[i + 1] == format[i..i + |w|][1] == w[1];
    assert |w| > 2 ==> format[i + 2] == format[i..i + |w|][2] == w[2];
  }

  lemma PieceRendered(p: Piece, w: Word, args: Arguments)
    requires GoodPiece(p) && !p.Literal? && (SlotsOf(p) != [] ==> w == SlotsOf(p)[0])
    ensures Rendered(LetterOf(p), IsLarge(p), w, args) == Shown(p, args.text)
    ensures |SlotsOf(p)| == if TakesArgument(LetterOf(p)) then 1 else 0
  {
    hide DecimalText, HexText;
    match p
    case Character(code, rest) =>
      assert w % 0x100 == code;
    case Int(value, upper) =>
      assert w % UINT32_LIMIT == value;
    case Hex(half, above) =>
      assert w % UINT32_LIMIT == half;
    case _ =>
  }

  lemma LiteralRead(p: Piece, format: string, i: nat, args: Arguments, so: Output)
    requires GoodPiece(p) && p.Literal? && i < |format| && format[i..i + 1] == Written(p)
    ensures |Written(p)| == 1 && SlotsOf(p) == [] && Shown(p, args.text) == Some([p.c])
    ensures OnePass(format, i, args, so) == OnePass(format, i + 1, args, Output(so.text + [p.c], so.used))
  {
    assert format[i] == format[i..i + 1][0] == Written(p)[0];
  }

  lemma LiteralLength(p: Piece)
    requires p.Literal?
    ensures |Written(p)| == 1
  {
  }

  lemma DirectiveStep(format: string, i: nat, args: Arguments, so: Output, d: DirectiveAt)
    requires i < |format| && format[i] == '%' && ReadDirective(format, i) == Some(d)
    ensures OnePass(format, i, args, so) ==
      match AfterDirective(d.formatter, d.large, args, so)
      case None => None
      case Some(next) => OnePass(format, d.next, args, next)
  {
    hide AfterDirective, ReadDirective;
  }

  lemma OnePiece(p: Piece, format: string, i: nat, args: Arguments, so: Output)
    requires GoodPiece(p) && i + |Written(p)| <= |format| && format[i..i + |Written(p)|] == Written(p)
    requires |SlotsOf(p)| > 0 ==> args.slot(so.used) == SlotsOf(p)[0]
    ensures OnePass(format, i, args, so) ==
      match Shown(p, args.text)
      case None => None
      case Some(t) => OnePass(format, i + |Written(p)|, args, Output(so.text + t, so.used + |SlotsOf(p)|))
  {
    hide OnePass, Rendered, Shown, LetterOf, IsLarge, ReadDirective, TakesArgument, Written, SlotsOf, GoodPiece;
    if p.Literal? {
      LiteralLength(p);
      LiteralRead(p, format, i, args, so);
    } else {
      PieceRead(p, format, i);
      PieceRendered(p, args.slot(so.used), args);
      DirectiveStep(format, i, args, so, ReadDirective(format, i).value);
    }
  }

  /** Printing a format with its arguments shows every piece in its place, text, characters and numbers alike, up to
      a number that is too long; it reads the slots of the arguments and no more. */
  lemma {:induction false} FormatMeans(ps: seq<Piece>, format: string, i: nat, args: Arguments, so: Output)
    requires forall p :: p in ps ==> GoodPiece(p)
    requires i <= |format| && format[i..] == WrittenAll(ps)
    requires forall j :: 0 <= j < |SlotsOfAll(ps)| ==> args.slot(so.used + j) == SlotsOfAll(ps)[j]
    ensures OnePass(format, i, args, so) ==
      match ShownAll(ps, args.text)
      case None => None
      case Some(t) => Some(Output(so.text + t, so.used + |SlotsOfAll(ps)|))
    decreases |ps|
  {
    hide Written, SlotsOf, Shown, GoodPiece;
    if ps != [] {
      var p, rest := ps[0], ps[1..];
      var n, k := |Written(p)|, |SlotsOf(p)|;
      assert format[i..] == Written(p) + WrittenAll(rest);
      assert format[i..i + n] == format[i..][..n] && format[i + n..] == format[i..][n..];
      assert SlotsOfAll(ps) == SlotsOf(p) + SlotsOfAll(rest);
      assert k > 0 ==> args.slot(so.used + 0) == SlotsOfAll(ps)[0];
      OnePiece(p, format, i, args, so);
      if Shown(p, args.text).Some? {
        var t := Shown(p, args.text).value;
        var next := Output(so.text + t, so.used + k);
        forall j | 0 <= j < |SlotsOfAll(rest)| ensures args.slot(next.used + j) == SlotsOfAll(rest)[j] {
          assert args.slot(so.used + (k + j)) == SlotsOfAll(ps)[k + j];
        }
        FormatMeans(rest, format, i + n, args, next);
        if ShownAll(rest, args.text).Some? {
          var t' := ShownAll(rest, args.text).value;
          assert so.text + (t + t') == next.text + t';
        }
      }
    } else {
      assert |format[i..]| == 0 && so.text + "" == so.text;
    }
  }

  // ---------------------------------------------------------------- directives

  /** The complete directives of a format, in order. */
  function Directives(format: string, i: nat): seq<DirectiveAt>
    decreases |format| - i
  {
    if i >= |format| then []
    else if format[i] != '%' then Directives(format, i + 1)
    else
      match ReadDirective(format, i)
      case None => []
      case Some(d) => [d] + Directives(format, d.next)
  }

  // ---------------------------------------------------------------- two passes

  /** The items collected from `i` on; none when the array is full, or when the format ends inside a
      directive, where the scan goes on behind its terminator. */
  function Collect(format: string, i: nat, last: nat, items: seq<PrintItem>): Option<seq<PrintItem>>
    requires last <= i
    decreases |format| - i
  {
    if i >= |format| then
      if |items| < MAX_ITEMS then Some(items + [Stretch(last, i - last)]) else None
    else if format[i] != '%' then Collect(format, i + 1, last, items)
    else if |items| + 2 > MAX_ITEMS then None
    else
      match ReadDirective(format, i)
      case None => None
      case Some(d) =>
        Collect(format, d.next, d.next, items + [Stretch(last, i - last), Directive(d.formatter, d.large)])
  }

  function Slice(format: string, start: nat, length: nat): string {
    if start + length <= |format| then format[start..start + length] else ""
  }

  function AfterItem(format: string, item: PrintItem, args: Arguments, so: Output): Option<Output> {
    if item.formatter == NUL then Some(Output(so.text + Slice(format, item.start, item.length), so.used))
    else AfterDirective(item.formatter, item.large, args, so)
  }

  function Replay(format: string, items: seq<PrintItem>, k: nat, args: Arguments, so: Output): Option<Output>
    decreases |items| - k
  {
    if k >= |items| then Some(so)
    else
      match AfterItem(format, items[k], args, so)
      case None => None
      case Some(then_) => Replay(format, items, k + 1, args, then_)
  }

  function TwoPasses(format: string, args: Arguments): Option<Output> {
    match Collect(format, 0, 0, [])
    case None => None
    case Some(items) => Replay(format, items, 0, args, Output("", 0))
  }

  /** `fprintf_internal`. */
  method FprintfInternal(format: string, args: Arguments) returns (out: Option<Output>)
    requires NUL !in format
    ensures out == TwoPasses(format, args)
  {
    var items := new PrintItem[MAX_ITEMS](_ => Stretch(0, 0));
    var count, last, i := 0, 0, 0;
    while i < |format|
      invariant 0 <= last <= i <= |format| && 0 <= count <= MAX_ITEMS
      invariant Collect(format, 0, 0, []) == Collect(format, i, last, items[..count])
    {
      if format[i] == '%' {
        if count + 2 > MAX_ITEMS {
          return None;
        }
        ghost var before := items[..count];
        items[count] := Stretch(last, i - last);
        var large, letter := false, i + 1;
        if i + 1 < |format| && format[i + 1] == 'z' {
          large, letter := true, i + 2;
        }
        if letter >= |format| {
          return None;
        }
        items[count + 1] := Directive(format[letter], large);
        assert items[..count + 2] == before + [items[count], items[count + 1]];
        count := count + 2;
        last := letter + 1;
        i := letter;
      }
      i := i + 1;
    }
    if count == MAX_ITEMS {
      return None;
    }
    ghost var before := items[..count];
    items[count] := Stretch(last, i - last);
    count := count + 1;
    assert items[..count] == before + [Stretch(last, i - last)];
    out := PrintItems(format, items, count, args);
  }

  /** The second pass. */
  method PrintItems(format: string, items: array<PrintItem>, count: nat, args: Arguments) returns (out: Option<Output>)
    requires count <= items.Length
    ensures out == Replay(format, items[..count], 0, args, Output("", 0))
  {
    var so := Output("", 0);
    for k := 0 to count
      invariant Replay(format, items[..count], 0, args, Output("", 0)) == Replay(format, items[..count], k, args, so)
    {
      var item := items[k];
      if item.formatter == NUL {
        so := Output(so.text + Slice(format, item.start, item.length), so.used);
      } else {
        var text := PrintDirective(item, args, so.used);
        if text == None {
          return None;
        }
        so := Output(so.text + text.value, if TakesArgument(item.formatter) then so.used + 1 else so.used);
      }
    }
    out := Some(so);
  }

  method PrintDirective(item: PrintItem, args: Arguments, used: nat) returns (text: Option<string>)
    ensures text == Rendered(item.formatter, item.large, args.slot(used), args)
  {
    var w := args.slot(used);
    match item.formatter {
      case 's' => text := Some(if w == 0 then "(null)" else args.text(w));
      case 'c' => text := Some([(w % 0x100) as char]);
      case 'p' => {
        var digits := PrintNumberHex(Number(w, item.large));
        text := Some(digits);
      }
      case 'x' => {
        var digits := PrintNumberHex(Number(w, item.large));
        text := Some(digits);
      }
      case 'd' => text := PrintNumberDecimal(Number(w, item.large));
      case _ => text := Some("<unknown>");
    }
  }

  // ---------------------------------------------------------------- the passes agree

  /** Collecting succeeds exactly when the one pass reaches the end of the format and the array holds two
      items for every directive and one more. */
  lemma {:induction false} CollectFits(format: string, i: nat, last: nat, items: seq<PrintItem>)
    requires last <= i
    ensures Collect(format, i, last, items).Some?
        <==> Complete(format, i) && |items| + 2 * |Directives(format, i)| < MAX_ITEMS
    decreases |format| - i
  {
    if i < |format| {
      if format[i] != '%' {
        CollectFits(format, i + 1, last, items);
      } else if |items| + 2 <= MAX_ITEMS && ReadDirective(format, i).Some? {
        var d := ReadDirective(format, i).value;
        CollectFits(format, d.next, d.next, items + [Stretch(last, i - last), Directive(d.formatter, d.large)]);
      }
    }
  }

  /** No directive is cut off by the end of the format. */
  predicate Complete(format: string, i: nat)
    decreases |format| - i
  {
    i >= |format|
    || (if format[i] != '%' then Complete(format, i + 1)
        else ReadDirective(format, i).Some? && Complete(format, ReadDirective(format, i).value.next))
  }

  lemma {:induction false} CollectExtends(format: string, i: nat, last: nat, items: seq<PrintItem>)
    requires last <= i && Collect(format, i, last, items).Some?
    ensures items <= Collect(format, i, last, items).value
    decreases |format| - i
  {
    if i < |format| {
      if format[i] != '%' {
        CollectExtends(format, i + 1, last, items);
      } else {
        var d := ReadDirective(format, i).value;
        CollectExtends(format, d.next, d.next, items + [Stretch(last, i - last), Directive(d.formatter, d.large)]);
      }
    }
  }

  /** Replaying the items from the first one that is still to come is the one pass, the pending stretch
      being what the one pass has already printed. */
  lemma {:induction false} ReplayIsOnePass(format: string, i: nat, last: nat, items: seq<PrintItem>,
                                           args: Arguments, so: Output)
    requires NUL !in format && last <= i <= |format| && Collect(format, i, last, items).Some?
    ensures Replay(format, Collect(format, i, last, items).value, |items|, args, so)
         == OnePass(format, i, args, Output(so.text + format[last..i], so.used))
    decreases |format| - i
  {
    var all := Collect(format, i, last, items).value;
    if i == |format| {
      assert Slice(format, last, i - last) == format[last..i];
    } else if format[i] != '%' {
      ReplayIsOnePass(format, i + 1, last, items, args, so);
      assert so.text + format[last..i] + [format[i]] == so.text + format[last..i + 1];
    } else {
      var d := ReadDirective(format, i).value;
      var more := items + [Stretch(last, i - last), Directive(d.formatter, d.large)];
      CollectExtends(format, d.next, d.next, more);
      assert all[|items|] == more[|items|] && all[|items| + 1] == more[|items| + 1];
      var printed := Output(so.text + format[last..i], so.used);
      var after := AfterDirective(d.formatter, d.large, args, printed);
      if after.Some? {
        ReplayIsOnePass(format, d.next, d.next, more, args, after.value);
        assert after.value.text + format[d.next..d.next] == after.value.text;
      }
    }
  }

  /** With at most 63 directives the two passes print what the one pass prints, and read the same arguments;
      with more, the item array overflows. */
  lemma TwoPassesAreOne(format: string, args: Arguments)
    requires NUL !in format
    ensures TwoPasses(format, args)
         == if |Directives(format, 0)| <= 63 then OnePass(format, 0, args, Output("", 0)) else None
  {
    CollectFits(format, 0, 0, []);
    if Collect(format, 0, 0, []).Some? {
      ReplayIsOnePass(format, 0, 0, [], args, Output("", 0));
      assert "" + format[0..0] == "";
    } else if |Directives(format, 0)| <= 63 {
      CutOff(format, 0, args, Output("", 0));
    }
  }

  lemma {:induction false} CutOff(format: string, i: nat, args: Arguments, so: Output)
    requires !Complete(format, i)
    ensures OnePass(format, i, args, so) == None
    decreases |format| - i
  {
    if format[i] != '%' {
      CutOff(format, i + 1, args, Output(so.text + [format[i]], so.used));
    } else if ReadDirective(format, i).Some? {
      var d := ReadDirective(format, i).value;
      var after := AfterDirective(d.formatter, d.large, args, so);
      if after.Some? {
        CutOff(format, d.next, args, after.value);
      }
    }
  }

  // ---------------------------------------------------------------- which arguments are read

  function Taking(ds: seq<DirectiveAt>): nat {
    if ds == [] then 0 else (if TakesArgument(ds[0].formatter) then 1 else 0) + Taking(ds[1..])
  }

  /** The number of slots read is the number of s, c, p, x and d directives, and no later slot matters. */
  lemma {:induction false} ReadsItsArguments(format: string, i: nat, args: Arguments, other: Arguments, so: Output)
    requires args.text == other.text
    requires forall k :: so.used <= k < so.used + Taking(Directives(format, i)) ==> args.slot(k) == other.slot(k)
    ensures OnePass(format, i, args, so) == OnePass(format, i, other, so)
    ensures OnePass(format, i, args, so).Some? ==>
      OnePass(format, i, args, so).value.used == so.used + Taking(Directives(format, i))
    decreases |format| - i
  {
    if i < |format| {
      if format[i] != '%' {
        ReadsItsArguments(format, i + 1, args, other, Output(so.text + [format[i]], so.used));
      } else if ReadDirective(format, i).Some? {
        var d := ReadDirective(format, i).value;
        var rest := Directives(format, d.next);
        assert Directives(format, i) == [d] + rest && ([d] + rest)[1..] == rest;
        var after := AfterDirective(d.formatter, d.large, args, so);
        assert after == AfterDirective(d.formatter, d.large, other, so);
        if after.Some? {
          ReadsItsArguments(format, d.next, args, other, after.value);
        }
      }
    }
  }
}

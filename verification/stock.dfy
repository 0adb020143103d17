/** Parts, order lines, and how orders move stock: creating an order takes each line's
    quantity out of the warehouse, deleting it puts the quantity back. */
module Stock {
  import opened Records

  /** A part in the warehouse: its name, unit price (whole rubles) and the quantity in stock. */
  datatype PartInfo = PartInfo(name: string, price: int, quantity: int)
  type Part = Row<PartInfo>

  /** One line of the order draft or of a saved order: the part's id, the name and price
      the part had when the line was drafted, and the quantity. */
  datatype Line = Line(partId: int, name: string, price: int, quantity: int)

  /** The part with its stock set to `quantity`, every other field kept. */
  function WithQuantity(p: Part, quantity: int): (r: Part)
    ensures r.id == p.id && r.data.name == p.data.name && r.data.price == p.data.price
    ensures r.data.quantity == quantity
  {
    Row(p.id, p.data.(quantity := quantity))
  }

  /** Two part lists that differ at most in stock quantities. */
  predicate SameShelf(a: seq<Part>, b: seq<Part>) {
    && |a| == |b|
    && forall k :: 0 <= k < |a| ==>
         a[k].id == b[k].id && a[k].data.name == b[k].data.name && a[k].data.price == b[k].data.price
  }

  /** How much of a part the lines ask for: the sum of the quantities of the lines for it. */
  function Drafted(lines: seq<Line>, id: int): int
  {
    if lines == [] then 0
    else
      var last := lines[|lines| - 1];
      Drafted(lines[..|lines| - 1], id) + (if last.partId == id then last.quantity else 0)
  }

  /** No two lines name the same part. */
  predicate DistinctLines(lines: seq<Line>) {
    forall i, j :: 0 <= i < j < |lines| ==> lines[i].partId != lines[j].partId
  }

  /** Every line asks for a positive quantity. */
  predicate PositiveLines(lines: seq<Line>) {
    forall k :: 0 <= k < |lines| ==> lines[k].quantity > 0
  }

  /** The position of the line for this part, or None. */
  function LineIndex(lines: seq<Line>, id: int): (r: Option<nat>)
    ensures r.Some? ==> r.value < |lines| && lines[r.value].partId == id
    ensures r.Some? ==> forall k :: 0 <= k < r.value ==> lines[k].partId != id
    ensures r.None? <==> forall k :: 0 <= k < |lines| ==> lines[k].partId != id
  {
    if lines == [] then None
    else if lines[0].partId == id then Some(0)
    else match LineIndex(lines[1..], id)
      case None => None
      case Some(k) => Some(k + 1)
  }

  /** The quantity of a part still free for the draft: stock minus what the draft already holds. */
  function Available(p: Part, draft: seq<Line>): int
  {
    p.data.quantity - Drafted(draft, p.id)
  }

  /** A part with no line in the draft has nothing drafted. */
  lemma {:induction false} DraftedAbsent(lines: seq<Line>, id: int)
    requires LineIndex(lines, id).None?
    ensures Drafted(lines, id) == 0
  {
    if lines != [] {
      DraftedAbsent(lines[..|lines| - 1], id);
    }
  }

  /** When each part has at most one line, the drafted quantity of a part is that line's quantity. */
  lemma {:induction false} DraftedOfLine(lines: seq<Line>, i: nat)
    requires DistinctLines(lines) && i < |lines|
    ensures Drafted(lines, lines[i].partId) == lines[i].quantity
  {
    var n := |lines|;
    var init := lines[..n - 1];
    if i == n - 1 {
      assert LineIndex(init, lines[i].partId).None?;
      DraftedAbsent(init, lines[i].partId);
    } else {
      assert init[i] == lines[i];
      DraftedOfLine(init, i);
    }
  }

  /** Lines with positive quantities never draft a negative amount. */
  lemma {:induction false} DraftedNonNegative(lines: seq<Line>, id: int)
    requires PositiveLines(lines)
    ensures Drafted(lines, id) >= 0
  {
    if lines != [] {
      DraftedNonNegative(lines[..|lines| - 1], id);
    }
  }

  /** Adding `delta` to the quantity of the line at `i` adds `delta` to that part's drafted total
      and leaves every other part's total alone. */
  lemma {:induction false} DraftedAfterGrow(lines: seq<Line>, i: nat, delta: int, id: int)
    requires i < |lines|
    ensures Drafted(lines[i := lines[i].(quantity := lines[i].quantity + delta)], id)
         == Drafted(lines, id) + (if lines[i].partId == id then delta else 0)
  {
    var n := |lines|;
    var grown := lines[i := lines[i].(quantity := lines[i].quantity + delta)];
    if i < n - 1 {
      assert grown[..n - 1] == lines[..n - 1][i := lines[i].(quantity := lines[i].quantity + delta)];
      DraftedAfterGrow(lines[..n - 1], i, delta, id);
    } else {
      assert grown[..n - 1] == lines[..n - 1];
    }
  }

  /** Appending a line adds its quantity to its part's drafted total. */
  lemma DraftedAfterAppend(lines: seq<Line>, line: Line, id: int)
    ensures Drafted(lines + [line], id) == Drafted(lines, id) + (if line.partId == id then line.quantity else 0)
  {
    assert (lines + [line])[..|lines|] == lines;
  }

  /** Puts `line` into the draft: the line already drafted for the same part grows by the new
      quantity, otherwise the line is appended. */
  function Merge(draft: seq<Line>, line: Line): seq<Line>
  {
    match LineIndex(draft, line.partId)
    case Some(i) => draft[i := draft[i].(quantity := draft[i].quantity + line.quantity)]
    case None => draft + [line]
  }

  /** The loop that merges a line into the draft: looks for the line of the same part, grows
      it if there is one, otherwise appends the line. */
  method MergeLine(draft: seq<Line>, line: Line) returns (merged: seq<Line>)
    ensures merged == Merge(draft, line)
  {
    var i := 0;
    while i < |draft| && draft[i].partId != line.partId
      invariant 0 <= i <= |draft|
      invariant forall k :: 0 <= k < i ==> draft[k].partId != line.partId
    {
      i := i + 1;
    }
    if i < |draft| {
      assert LineIndex(draft, line.partId) == Some(i);
      merged := draft[i := draft[i].(quantity := draft[i].quantity + line.quantity)];
    } else {
      merged := draft + [line];
    }
  }

  /** Merging a line adds its quantity to its part's drafted total and to nothing else. */
  lemma MergeDrafted(draft: seq<Line>, line: Line, id: int)
    ensures Drafted(Merge(draft, line), id) == Drafted(draft, id) + (if id == line.partId then line.quantity else 0)
  {
    match LineIndex(draft, line.partId)
    case Some(i) =>
      DraftedAfterGrow(draft, i, line.quantity, id);
    case None =>
      DraftedAfterAppend(draft, line, id);
  }

  /** Merging a line with a positive quantity keeps one positive line per part. */
  lemma MergeKeepsLines(draft: seq<Line>, line: Line)
    requires DistinctLines(draft) && PositiveLines(draft) && line.quantity > 0
    ensures DistinctLines(Merge(draft, line)) && PositiveLines(Merge(draft, line))
    ensures |Merge(draft, line)| == |draft| + (if LineIndex(draft, line.partId).Some? then 0 else 1)
  {
  }

  /** Adds `delta` to the stock of the first part with this id; a missing part is skipped. */
  function Shift(parts: seq<Part>, id: int, delta: int): (r: seq<Part>)
    ensures SameShelf(parts, r)
  {
    match IndexOfId(parts, id)
    case None => parts
    case Some(k) => parts[k := WithQuantity(parts[k], parts[k].data.quantity + delta)]
  }

  /** Applies every line, in order, to the stock: `restore` puts the quantities back
      (deleting an order), otherwise they are taken out (creating one). */
  function ShiftAll(parts: seq<Part>, lines: seq<Line>, restore: bool): (r: seq<Part>)
    ensures SameShelf(parts, r)
  {
    if lines == [] then parts
    else
      var last := lines[|lines| - 1];
      Shift(ShiftAll(parts, lines[..|lines| - 1], restore), last.partId,
            if restore then last.quantity else -last.quantity)
  }

  /** The loop the shop runs over an order's lines: one lookup of the part and one stock
      update per line. */
  method ApplyLines(parts: seq<Part>, lines: seq<Line>, restore: bool) returns (stock: seq<Part>)
    ensures stock == ShiftAll(parts, lines, restore)
  {
    stock := parts;
    var i := 0;
    while i < |lines|
      invariant 0 <= i <= |lines|
      invariant stock == ShiftAll(parts, lines[..i], restore)
    {
      var line := lines[i];
      match IndexOfId(stock, line.partId) {
        case None =>
        case Some(j) =>
          var delta := if restore then line.quantity else -line.quantity;
          stock := stock[j := WithQuantity(stock[j], stock[j].data.quantity + delta)];
      }
      assert lines[..i + 1][..i] == lines[..i];
      i := i + 1;
    }
    assert lines[..|lines|] == lines;
  }

  /** With distinct part ids, each part's stock after the lines are applied is its stock before,
      plus (restore) or minus (take) the total the lines ask for that part. */
  lemma {:induction false} ShiftAllAt(parts: seq<Part>, lines: seq<Line>, restore: bool, k: nat)
    requires DistinctIds(parts) && k < |parts|
    ensures ShiftAll(parts, lines, restore)[k].data.quantity
         == parts[k].data.quantity + (if restore then Drafted(lines, parts[k].id) else -Drafted(lines, parts[k].id))
  {
    if lines != [] {
      var n := |lines|;
      var last := lines[n - 1];
      var before := ShiftAll(parts, lines[..n - 1], restore);
      ShiftAllAt(parts, lines[..n - 1], restore, k);
      assert DistinctIds(before);
      match IndexOfId(before, last.partId)
      case None =>
      case Some(j) =>
        assert j == k <==> before[k].id == last.partId;
    }
  }

  /** Deleting an order right after creating it gives the warehouse back exactly as it was. */
  lemma ReturnAfterTake(parts: seq<Part>, lines: seq<Line>)
    requires DistinctIds(parts)
    ensures ShiftAll(ShiftAll(parts, lines, false), lines, true) == parts
  {
    var taken := ShiftAll(parts, lines, false);
    var back := ShiftAll(taken, lines, true);
    assert DistinctIds(taken);
    forall k | 0 <= k < |parts| ensures back[k] == parts[k] {
      ShiftAllAt(parts, lines, false, k);
      ShiftAllAt(taken, lines, true, k);
    }
  }

  /** The line's part exists and has at least the line's quantity in stock. */
  predicate Covered(parts: seq<Part>, line: Line) {
    match IndexOfId(parts, line.partId)
    case None => false
    case Some(j) => parts[j].data.quantity >= line.quantity
  }

  /** The first line the warehouse cannot cover, or None when it covers them all
      (ShortfallNone). */
  function Shortfall(parts: seq<Part>, lines: seq<Line>): (r: Option<nat>)
    ensures r.Some? ==> r.value < |lines| && !Covered(parts, lines[r.value])
  {
    if lines == [] then None
    else if !Covered(parts, lines[0]) then Some(0)
    else match Shortfall(parts, lines[1..])
      case None => None
      case Some(k) => Some(k + 1)
  }

  /** There is no shortfall exactly when the warehouse covers every line; a shortfall is
      the first uncovered line. */
  lemma {:induction false} ShortfallNone(parts: seq<Part>, lines: seq<Line>)
    ensures Shortfall(parts, lines).None? <==> forall k :: 0 <= k < |lines| ==> Covered(parts, lines[k])
    ensures Shortfall(parts, lines).Some? ==>
      forall k :: 0 <= k < Shortfall(parts, lines).value ==> Covered(parts, lines[k])
  {
    if lines != [] {
      ShortfallNone(parts, lines[1..]);
      if Covered(parts, lines[0]) {
        forall k | 0 < k < |lines| ensures lines[k] == lines[1..][k - 1] {
        }
      }
    }
  }

  /** No part has negative stock. */
  predicate NonNegativeStock(parts: seq<Part>) {
    forall k :: 0 <= k < |parts| ==> parts[k].data.quantity >= 0
  }

  /** Taking out a draft that the warehouse covers, one line per part, leaves no stock negative. */
  lemma TakeKeepsStock(parts: seq<Part>, lines: seq<Line>)
    requires DistinctIds(parts) && DistinctLines(lines) && NonNegativeStock(parts)
    requires Shortfall(parts, lines).None?
    ensures NonNegativeStock(ShiftAll(parts, lines, false))
  {
    ShortfallNone(parts, lines);
    var after := ShiftAll(parts, lines, false);
    forall k | 0 <= k < |parts| ensures after[k].data.quantity >= 0 {
      forall i | 0 <= i < |lines| && lines[i].partId == parts[k].id
        ensures lines[i].quantity <= parts[k].data.quantity
      {
        CoveredAt(parts, lines[i], k);
      }
      TakeKeepsPart(parts, lines, k);
    }
  }

  /** With distinct ids, a covered line is covered by the one part with its id. */
  lemma CoveredAt(parts: seq<Part>, line: Line, k: nat)
    requires DistinctIds(parts) && k < |parts| && parts[k].id == line.partId
    requires Covered(parts, line)
    ensures line.quantity <= parts[k].data.quantity
  {
    assert IndexOfId(parts, line.partId) == Some(k);
  }

  lemma TakeKeepsPart(parts: seq<Part>, lines: seq<Line>, k: nat)
    requires DistinctIds(parts) && DistinctLines(lines) && k < |parts| && parts[k].data.quantity >= 0
    requires forall i :: 0 <= i < |lines| && lines[i].partId == parts[k].id ==> lines[i].quantity <= parts[k].data.quantity
    ensures ShiftAll(parts, lines, false)[k].data.quantity >= 0
  {
    ShiftAllAt(parts, lines, false, k);
    match LineIndex(lines, parts[k].id)
    case None =>
      DraftedAbsent(lines, parts[k].id);
    case Some(i) =>
      DraftedOfLine(lines, i);
  }

  /** Putting back lines with positive quantities leaves no stock negative. */
  lemma ReturnKeepsStock(parts: seq<Part>, lines: seq<Line>)
    requires DistinctIds(parts) && PositiveLines(lines) && NonNegativeStock(parts)
    ensures NonNegativeStock(ShiftAll(parts, lines, true))
  {
    var after := ShiftAll(parts, lines, true);
    forall k | 0 <= k < |parts| ensures after[k].data.quantity >= 0 {
      ShiftAllAt(parts, lines, true, k);
      DraftedNonNegative(lines, parts[k].id);
    }
  }
}

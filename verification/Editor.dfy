/** The line editor: a doubly linked list of lines with counters, a current line, and a pointer
    that caches where it is.
 */
module Editor {
  import opened Options
  import opened Links

  // ---------------------------------------------------------------- words, characters, text

  predicate Blank(c: char) {
    c == ' ' || c == '\t'
  }

  /** A word starts at each character that is not blank and has no other in front of it. */
  function WordStarts(str: string): (n: nat)
    ensures n <= |str|
  {
    if str == "" then 0
    else WordStarts(str[..|str| - 1]) +
         if !Blank(str[|str| - 1]) && (|str| == 1 || Blank(str[|str| - 2])) then 1 else 0
  }

  function TotalWords(texts: seq<string>): nat {
    if texts == [] then 0 else WordStarts(texts[0]) + TotalWords(texts[1..])
  }

  function TotalCharacters(texts: seq<string>): nat {
    if texts == [] then 0 else |texts[0]| + TotalCharacters(texts[1..])
  }

  /** What a buffer holds, as one text: a raw one has its line ends in its lines already. */
  function Dumped(texts: seq<string>, isRaw: bool): string {
    if texts == [] then "" else texts[0] + (if isRaw then "" else "\n") + Dumped(texts[1..], isRaw)
  }

  /** EDIT_SIZE */
  function Size(texts: seq<string>, isRaw: bool): nat {
    TotalCharacters(texts) + if isRaw then 0 else |texts|
  }

  lemma {:induction false} DumpedSize(texts: seq<string>, isRaw: bool)
    ensures |Dumped(texts, isRaw)| == Size(texts, isRaw)
    decreases |texts|
  {
    if texts != [] {
      DumpedSize(texts[1..], isRaw);
    }
  }

  lemma {:induction false} TotalsWith(texts: seq<string>, p: nat, line: string)
    requires p <= |texts|
    ensures TotalWords(With(texts, p, line)) == TotalWords(texts) + WordStarts(line)
    ensures TotalCharacters(With(texts, p, line)) == TotalCharacters(texts) + |line|
    decreases p
  {
    var r := With(texts, p, line);
    if p == 0 {
      assert r[1..] == texts;
    } else {
      TotalsWith(texts[1..], p - 1, line);
      assert r[1..] == With(texts[1..], p - 1, line);
    }
  }

  lemma TotalsWithout(texts: seq<string>, k: nat)
    requires k < |texts|
    ensures TotalWords(Without(texts, k)) == TotalWords(texts) - WordStarts(texts[k])
    ensures TotalCharacters(Without(texts, k)) == TotalCharacters(texts) - |texts[k]|
  {
    TotalsWith(Without(texts, k), k, texts[k]);
    assert With(Without(texts, k), k, texts[k]) == texts;
  }

  /** `strspn` and `strcspn` with the blanks: where the run that starts at `from` ends. */
  method SkipRun(str: string, from: nat, blanks: bool) returns (end: nat)
    requires from <= |str|
    ensures from <= end <= |str| && (end < |str| ==> Blank(str[end]) != blanks)
    ensures forall i :: from <= i < end ==> Blank(str[i]) == blanks
  {
    end := from;
    while end < |str| && Blank(str[end]) == blanks
      invariant from <= end <= |str|
      invariant forall i :: from <= i < end ==> Blank(str[i]) == blanks
    {
      end := end + 1;
    }
  }

  lemma {:induction false} RunStarts(str: string, from: nat, end: nat, blanks: bool)
    requires from <= end <= |str| && forall i :: from <= i < end ==> Blank(str[i]) == blanks
    requires from > 0 ==> Blank(str[from - 1]) != blanks || blanks
    ensures WordStarts(str[..end]) == WordStarts(str[..from]) + if from < end && !blanks then 1 else 0
    decreases end
  {
    if from < end {
      assert str[..end][..end - 1] == str[..end - 1];
      if from < end - 1 {
        RunStarts(str, from, end - 1, blanks);
      }
    }
  }

  /** `internal_edit_count_words` */
  method CountWords(str: string) returns (words: nat)
    ensures words == WordStarts(str)
  {
    words := 0;
    var at := 0;
    while at < |str|
      invariant 0 <= at <= |str| && words == WordStarts(str[..at])
      invariant 0 < at < |str| ==> Blank(str[at]) && !Blank(str[at - 1])
    {
      var end := SkipRun(str, at, true);
      RunStarts(str, at, end, true);
      if end == |str| {
        assert str[..end] == str;
        return;
      }
      at := SkipRun(str, end, false);
      RunStarts(str, end, at, false);
      words := words + 1;
    }
    assert str[..at] == str;
  }

  // ---------------------------------------------------------------- the buffer

  class EditBase {
    var linesStart: Node?<string>
    var linesEnd: Node?<string>
    var lines: nat
    var words: nat
    var characters: nat
    var currentLine: nat
    var cachedCurrentLine: Node?<string>
    var maxLines: nat
    var maxCharacters: nat
    const isRaw: bool

    // the nodes from first to last, their text, and the objects in use
    ghost var nodes: seq<Node<string>>
    ghost var texts: seq<string>
    ghost var repr: set<Node<string>>

    constructor (isRaw: bool)
      ensures Valid() && texts == [] && currentLine == 0 && this.isRaw == isRaw && repr == {}
      ensures maxLines == maxCharacters == 0
    {
      this.isRaw := isRaw;
      linesStart, linesEnd, lines, words, characters := null, null, 0, 0, 0;
      currentLine, cachedCurrentLine, maxLines, maxCharacters := 0, null, 0, 0;
      nodes, texts, repr := [], [], {};
    }

    ghost predicate Linked()
      reads this`linesStart, this`linesEnd, this`nodes, nodes`next, nodes`prev
    {
      && linesStart == At(nodes, 0) && linesEnd == At(nodes, |nodes| - 1)
      && Links.Forward(nodes) && Links.Backward(nodes)
    }

    /** The counters are the sums over the list. */
    ghost predicate Counted()
      reads this`lines, this`words, this`characters, this`texts
    {
      && lines == |texts| && characters == TotalCharacters(texts)
      && words == if isRaw then 0 else TotalWords(texts)
    }

    ghost predicate Listed()
      reads this`linesStart, this`linesEnd, this`lines, this`words, this`characters
      reads this`nodes, this`texts, this`repr, repr
    {
      && Within(nodes, repr) && Holds(nodes, texts) && Linked() && Counted()
    }

    /** A cached line is the one that `currentLine` counts to. */
    ghost predicate Cached()
      reads this`currentLine, this`cachedCurrentLine, this`nodes
    {
      cachedCurrentLine != null ==> cachedCurrentLine == At(nodes, currentLine - 1)
    }

    ghost predicate Valid()
      reads this, repr
    {
      Listed() && currentLine <= lines && Cached()
    }

    /** The node that a number counts to; line 0 stands for the first line. */
    ghost function Numbered(line: nat): Node?<string>
      reads this`nodes
    {
      if line == 0 then At(nodes, 0) else At(nodes, line - 1)
    }

    /** `edit_find_line`: from whichever end is nearer, the node that the number counts to. */
    method FindLine(line: nat) returns (scan: Node?<string>)
      requires Listed() && line <= lines
      ensures scan == Numbered(line)
    {
      scan := linesStart;
      var count := 0;
      if line == 0 {
        return;
      } else if line == lines {
        return linesEnd;
      }
      if lines / 2 < line {
        scan, count := linesEnd, lines + 1;
        count := count - 1;
        while scan != null && count > line
          invariant line <= count <= lines && scan == At(nodes, count - 1)
          decreases count
        {
          scan := scan.prev;
          count := count - 1;
        }
        return;
      }
      count := count + 1;
      while scan != null && count < line
        invariant 1 <= count <= line && scan == At(nodes, count - 1)
      {
        scan := scan.next;
        count := count + 1;
      }
    }

    /** `edit_find_point`: at line 0 the first line is found, and cached, instead. */
    method FindPoint() returns (node: Node?<string>)
      requires Listed() && currentLine <= lines && Cached()
      modifies this`cachedCurrentLine
      ensures node == Numbered(currentLine) && node == cachedCurrentLine
    {
      node := cachedCurrentLine;
      if node == null {
        node := FindLine(currentLine);
        cachedCurrentLine := node;
      }
    }

    /** A new node that the list links to at position p. */
    ghost predicate Between(node: Node<string>, p: nat)
      reads this`linesStart, this`linesEnd, this`nodes, node`next, node`prev, nodes`next, nodes`prev
    {
      && node.next == At(nodes, p) && node.prev == At(nodes, p - 1)
      && ForwardTo(nodes, p, node) && BackwardTo(nodes, p, node)
      && linesStart == (if p == 0 then node else At(nodes, 0))
      && linesEnd == (if p == |nodes| then node else At(nodes, |nodes| - 1))
    }

    method LinkFirst(node: Node<string>)
      requires Listed() && Outside(nodes, node)
      modifies this`linesStart, this`linesEnd, node`next, node`prev, nodes`prev
      ensures Between(node, 0)
    {
      if lines == 0 {
        node.next := null;
        node.prev := null;
        linesEnd := node;
        linesStart := node;
      } else {
        DistinctAt(nodes, 0);
        node.next := linesStart;
        if node.next != null {
          node.next.prev := node;
        }
        node.prev := null;
        linesStart := node;
      }
    }

    method LinkBehind(node: Node<string>, after: Node<string>, ghost p: nat)
      requires Linked() && Outside(nodes, node) && 1 <= p <= |nodes| && after == nodes[p - 1]
      modifies this`linesEnd, node`next, node`prev, nodes`next, nodes`prev
      ensures Between(node, p)
    {
      DistinctAt(nodes, p - 1);
      if p < |nodes| {
        DistinctAt(nodes, p);
      }
      node.next := after.next;
      if node.next != null {
        node.next.prev := node;
      } else {
        linesEnd := node;
      }
      after.next := node;
      node.prev := after;
    }

    /** The node is part of the list from here on. */
    ghost method Placed(node: Node<string>, p: nat)
      requires Within(nodes, repr) && Holds(nodes, texts)
      requires p <= |nodes| && Outside(nodes, node) && Between(node, p)
      modifies this`nodes, this`texts, this`repr
      ensures Within(nodes, repr) && Holds(nodes, texts) && Linked()
      ensures nodes == With(old(nodes), p, node) && texts == With(old(texts), p, node.value)
      ensures repr == old(repr) + {node}
    {
      var ns := With(nodes, p, node);
      ForwardWith(nodes, p, node, ns);
      BackwardWith(nodes, p, node, ns);
      WithinWith(nodes, p, node, repr);
      HoldsWith(nodes, texts, p, node);
      nodes, texts, repr := ns, With(texts, p, node.value), repr + {node};
    }

    /** The links of `internal_edit_new_line_node`: behind the current line. */
    method Link(node: Node<string>)
      requires Valid() && Outside(nodes, node)
      modifies this`linesStart, this`linesEnd, this`cachedCurrentLine, node`next, node`prev, nodes`next, nodes`prev
      ensures Between(node, currentLine) && Cached()
      ensures cachedCurrentLine != null ==> currentLine > 0
    {
      if lines == 0 || currentLine == 0 {
        LinkFirst(node);
      } else {
        var after := FindPoint();
        assert after != null;
        LinkBehind(node, after, currentLine);
      }
    }

    /** The new line is the current one, and the cached line moves on with it. */
    method Enter(node: Node<string>)
      requires Valid() && Outside(nodes, node)
      modifies this`linesStart, this`linesEnd, this`cachedCurrentLine, this`nodes, this`texts, this`repr
      modifies this`currentLine, node`next, node`prev, repr`next, repr`prev
      ensures Within(nodes, repr) && Holds(nodes, texts) && Linked() && Cached()
      ensures repr == old(repr) + {node} && currentLine == old(currentLine) + 1
      ensures texts == With(old(texts), old(currentLine), node.value)
    {
      Link(node);
      Placed(node, currentLine);
      currentLine := currentLine + 1;
      if cachedCurrentLine != null {
        cachedCurrentLine := cachedCurrentLine.next;
      }
    }

    /** `internal_edit_new_line_node` */
    method NewLineNode(node: Node<string>)
      requires Valid() && Outside(nodes, node)
      modifies this`linesStart, this`linesEnd, this`cachedCurrentLine, this`nodes, this`texts, this`repr
      modifies this`currentLine, this`lines, this`words, this`characters
      modifies node`next, node`prev, repr`next, repr`prev
      ensures Valid() && repr == old(repr) + {node}
      ensures texts == With(old(texts), old(currentLine), node.value)
      ensures currentLine == old(currentLine) + 1
    {
      TotalsWith(texts, currentLine, node.value);
      Enter(node);
      Count(node.value);
    }

    method Count(line: string)
      requires lines + 1 == |texts| && characters + |line| == TotalCharacters(texts)
      requires if isRaw then words == 0 else words + WordStarts(line) == TotalWords(texts)
      modifies this`lines, this`words, this`characters
      ensures Counted()
    {
      lines := lines + 1;
      if !isRaw {
        var count := CountWords(line);
        words := words + count;
      }
      characters := characters + |line|;
    }

    method Unlink(node: Node<string>, ghost k: nat)
      requires Linked() && k < |nodes| && node == nodes[k]
      modifies this`linesStart, this`linesEnd, nodes`next, nodes`prev
      ensures linesStart == (if k == 0 then At(nodes, 1) else At(nodes, 0))
      ensures linesEnd == (if k == |nodes| - 1 then At(nodes, k - 1) else At(nodes, |nodes| - 1))
      ensures ForwardPast(nodes, k) && BackwardPast(nodes, k)
    {
      if k > 0 {
        DistinctAt(nodes, k - 1);
      }
      if k + 1 < |nodes| {
        DistinctAt(nodes, k + 1);
      }
      if node.prev != null {
        node.prev.next := node.next;
      } else {
        linesStart := node.next;
      }
      if node.next != null {
        node.next.prev := node.prev;
      } else {
        linesEnd := node.prev;
      }
    }

    ghost method Dropped(k: nat)
      requires Within(nodes, repr) && Holds(nodes, texts) && k < |nodes|
      requires linesStart == (if k == 0 then At(nodes, 1) else At(nodes, 0))
      requires linesEnd == (if k == |nodes| - 1 then At(nodes, k - 1) else At(nodes, |nodes| - 1))
      requires ForwardPast(nodes, k) && BackwardPast(nodes, k)
      modifies this`nodes, this`texts
      ensures Within(nodes, repr) && Holds(nodes, texts) && Linked()
      ensures nodes == Without(old(nodes), k) && texts == Without(old(texts), k)
    {
      var ns := Without(nodes, k);
      ForwardWithout(nodes, k, ns);
      BackwardWithout(nodes, k, ns);
      WithinWithout(nodes, k, repr);
      nodes, texts := ns, Without(texts, k);
    }

    /** `edit_delete_line_node` */
    method DeleteLineNode(node: Node<string>, ghost k: nat)
      requires Listed() && k < |nodes| && node == nodes[k]
      modifies this`linesStart, this`linesEnd, this`nodes, this`texts, this`lines, this`words, this`characters
      modifies repr`next, repr`prev
      ensures Listed() && nodes == Without(old(nodes), k) && texts == Without(old(texts), k)
    {
      var line := node.value;
      TotalsWithout(texts, k);
      Unlink(node, k);
      Dropped(k);
      Discount(line);
    }

    method Discount(line: string)
      requires lines == |texts| + 1 && characters == TotalCharacters(texts) + |line|
      requires if isRaw then words == 0 else words == TotalWords(texts) + WordStarts(line)
      modifies this`lines, this`words, this`characters
      ensures Counted()
    {
      lines := lines - 1;
      if !isRaw {
        var count := CountWords(line);
        words := words - count;
      }
      characters := characters - |line|;
    }

    /** `edit_insert_line`: a new line of text, if the limits allow. */
    method InsertLine(str: string) returns (ok: bool)
      requires Valid()
      modifies this, repr`next, repr`prev
      ensures Valid() && fresh(repr - old(repr))
      ensures ok <==>
        && !(maxLines != 0 && |old(texts)| >= maxLines)
        && !(maxCharacters != 0 && Size(old(texts), isRaw) + |str| + 3 > maxCharacters)
      ensures ok ==> texts == With(old(texts), old(currentLine), str) && currentLine == old(currentLine) + 1
      ensures !ok ==> texts == old(texts) && currentLine == old(currentLine)
      ensures maxLines == old(maxLines) && maxCharacters == old(maxCharacters)
    {
      if maxLines != 0 && lines >= maxLines {
        return false;
      }
      if maxCharacters != 0 && characters + (if isRaw then 0 else lines) + |str| + 3 > maxCharacters {
        return false;
      }
      var node := new Node(str);
      NewLineNode(node);
      ok := true;
    }

    /** The last line goes. */
    method DeleteLast()
      requires Listed() && lines > 0
      modifies this`linesStart, this`linesEnd, this`nodes, this`texts, this`lines, this`words, this`characters
      modifies repr`next, repr`prev
      ensures Listed() && nodes == old(nodes)[..|old(nodes)| - 1] && texts == old(texts)[..|old(texts)| - 1]
    {
      DeleteLineNode(linesEnd, lines - 1);
    }

    /** What both limits do in the end: the current line is still there, or else it is the last. */
    method KeepWithin()
      requires Listed()
      requires cachedCurrentLine != null && currentLine <= lines ==> cachedCurrentLine == At(nodes, currentLine - 1)
      modifies this`currentLine, this`cachedCurrentLine
      ensures Valid() && currentLine == if old(currentLine) > lines then lines else old(currentLine)
    {
      if currentLine > lines {
        currentLine := lines;
        cachedCurrentLine := null;
      }
    }

    /** The loop of `edit_limit_lines`. */
    method ShrinkToLines(max: nat)
      requires Listed()
      modifies this`linesStart, this`linesEnd, this`nodes, this`texts, this`lines, this`words, this`characters
      modifies repr`next, repr`prev
      ensures Listed() && lines == if max < |old(nodes)| then max else |old(nodes)|
      ensures lines <= |old(nodes)| && nodes == old(nodes)[..lines]
      ensures lines <= |old(texts)| && texts == old(texts)[..lines]
    {
      while max < lines
        invariant Listed() && lines <= |old(nodes)| == |old(texts)|
        invariant nodes == old(nodes)[..lines] && texts == old(texts)[..lines]
        invariant lines == |old(nodes)| || max <= lines
        decreases lines
      {
        DeleteLast();
      }
    }

    /** The loop of `edit_limit_characters`. */
    method ShrinkToCharacters(max: nat)
      requires Listed()
      modifies this`linesStart, this`linesEnd, this`nodes, this`texts, this`lines, this`words, this`characters
      modifies repr`next, repr`prev
      ensures Listed() && TotalCharacters(texts) <= max
      ensures lines <= |old(nodes)| && nodes == old(nodes)[..lines]
      ensures lines <= |old(texts)| && texts == old(texts)[..lines]
      ensures lines < |old(texts)| ==> TotalCharacters(old(texts)[..lines + 1]) > max
    {
      while max < characters
        invariant Listed() && lines <= |old(nodes)| == |old(texts)|
        invariant nodes == old(nodes)[..lines] && texts == old(texts)[..lines]
        invariant lines < |old(texts)| ==> TotalCharacters(old(texts)[..lines + 1]) > max
        decreases lines
      {
        DeleteLast();
      }
    }

    /** `edit_limit_lines` */
    method LimitLines(max: nat)
      requires Valid()
      modifies this, repr`next, repr`prev
      ensures Valid() && repr == old(repr) && maxLines == max && maxCharacters == old(maxCharacters)
      ensures texts == if max != 0 && max < |old(texts)| then old(texts)[..max] else old(texts)
      ensures currentLine == if old(currentLine) > lines then lines else old(currentLine)
    {
      if max != 0 {
        ShrinkToLines(max);
        KeepWithin();
      }
      maxLines := max;
    }

    /** `edit_limit_characters`: lines go from the end until the rest is within the limit. */
    method LimitCharacters(max: nat)
      requires Valid()
      modifies this, repr`next, repr`prev
      ensures Valid() && repr == old(repr) && maxCharacters == max && maxLines == old(maxLines)
      ensures |texts| <= |old(texts)| && texts == old(texts)[..|texts|]
      ensures if max == 0 then texts == old(texts) else TotalCharacters(texts) <= max
      ensures |texts| < |old(texts)| ==> TotalCharacters(old(texts)[..|texts| + 1]) > max
      ensures currentLine == if old(currentLine) > lines then lines else old(currentLine)
    {
      if max != 0 {
        ShrinkToCharacters(max);
        KeepWithin();
      }
      maxCharacters := max;
    }

    /** `internal_edit_wipe` */
    method Wipe()
      requires Valid()
      modifies this, repr`next, repr`prev
      ensures Valid() && repr == old(repr) && texts == [] && currentLine == 0
      ensures maxLines == old(maxLines) && maxCharacters == old(maxCharacters)
    {
      WipeLines();
      currentLine := 0;
      cachedCurrentLine := null;
    }

    method WipeLines()
      requires Listed()
      modifies this`linesStart, this`linesEnd, this`nodes, this`texts, this`lines, this`words, this`characters
      modifies repr`next, repr`prev
      ensures Listed() && texts == []
    {
      while linesStart != null
        invariant Listed()
        decreases lines
      {
        DeleteLineNode(linesStart, 0);
      }
    }

    /** `edit_backward_line` */
    method Backward(number: nat)
      requires Valid() && number >= 1
      modifies this`currentLine, this`cachedCurrentLine
      ensures Valid() && currentLine == if old(currentLine) < number then 0 else old(currentLine) - number
    {
      var togo := number;
      while togo > 0
        invariant Valid() && togo <= number
        invariant currentLine == if old(currentLine) < number - togo then 0 else old(currentLine) - (number - togo)
      {
        togo := togo - 1;
        if currentLine == 0 {
          break;
        } else {
          currentLine := currentLine - 1;
          if cachedCurrentLine != null {
            cachedCurrentLine := cachedCurrentLine.prev;
          }
        }
      }
    }

    /** `edit_forward_line` */
    method Forward(number: nat)
      requires Valid() && number >= 1
      modifies this`currentLine, this`cachedCurrentLine
      ensures Valid() && currentLine == if old(currentLine) + number > lines then lines else old(currentLine) + number
    {
      var togo := number;
      while togo > 0
        invariant Valid() && togo <= number
        invariant currentLine == (var n := old(currentLine) + (number - togo); if n > lines then lines else n)
      {
        togo := togo - 1;
        if currentLine >= lines {
          assert currentLine == lines;
          break;
        } else {
          currentLine := currentLine + 1;
          if cachedCurrentLine != null {
            cachedCurrentLine := cachedCurrentLine.next;
          }
        }
      }
    }

    method GotoTop()
      requires Valid()
      modifies this`currentLine, this`cachedCurrentLine
      ensures Valid() && currentLine == 0
    {
      currentLine := 0;
      cachedCurrentLine := null;
    }

    method GotoBottom()
      requires Valid()
      modifies this`currentLine, this`cachedCurrentLine
      ensures Valid() && currentLine == lines
    {
      currentLine := lines;
      cachedCurrentLine := linesEnd;
    }

    /** `edit_goto_line` */
    method GotoLine(line: nat)
      requires Valid()
      modifies this`currentLine, this`cachedCurrentLine
      ensures Valid() && currentLine == if line > lines then lines else line
    {
      currentLine := if line > lines then lines else line;
      cachedCurrentLine := null;
    }

    /** One round of `edit_delete_line`: the line goes, and the one behind it is cached. */
    method DeleteOne(node: Node<string>, ghost k: nat)
      requires Listed() && k < |nodes| && node == nodes[k] && currentLine <= k + 1
      modifies this`linesStart, this`linesEnd, this`nodes, this`texts, this`lines, this`words, this`characters
      modifies this`currentLine, this`cachedCurrentLine, repr`next, repr`prev
      ensures Listed() && texts == Without(old(texts), k) && cachedCurrentLine == At(nodes, k)
      ensures currentLine == if cachedCurrentLine == null then lines else old(currentLine)
      ensures currentLine <= lines
    {
      var cache := node.next;
      DeleteLineNode(node, k);
      cachedCurrentLine := cache;
      if cache == null {
        currentLine := lines;
      }
      assert currentLine <= lines;
    }

    /** The same round, told from the texts of before the loop. */
    method DeleteNext(node: Node<string>, ghost k: nat, ghost before: seq<string>, ghost gone: nat)
      requires Listed() && k < |nodes| && node == nodes[k] && currentLine <= k + 1
      requires k + gone < |before| && texts == Removed(before, k, gone)
      modifies this`linesStart, this`linesEnd, this`nodes, this`texts, this`lines, this`words, this`characters
      modifies this`currentLine, this`cachedCurrentLine, repr`next, repr`prev
      ensures Listed() && texts == Removed(before, k, gone + 1) && cachedCurrentLine == At(nodes, k)
      ensures currentLine == if cachedCurrentLine == null then lines else old(currentLine)
      ensures currentLine <= lines && (k < |nodes| ==> k + gone + 1 < |before|)
    {
      RemovedMore(before, k, gone, texts);
      DeleteOne(node, k);
    }

    /** The loop of `edit_delete_line`. */
    method DeleteLines(curr: Node<string>, number: nat, ghost k: nat)
      requires Listed() && k < |nodes| && curr == nodes[k] && number >= 1
      requires k == if currentLine == 0 then 0 else currentLine - 1
      modifies this`linesStart, this`linesEnd, this`nodes, this`texts, this`lines, this`words, this`characters
      modifies this`currentLine, this`cachedCurrentLine, repr`next, repr`prev
      ensures Listed() && texts == Removed(old(texts), k, number) && cachedCurrentLine == At(nodes, k)
      ensures currentLine == (if old(currentLine) <= lines then old(currentLine) else lines)
    {
      var togo, node := number, curr;
      ghost var before := texts;
      RemovedNone(before, k);
      while togo > 0
        invariant Listed() && togo <= number && k < |nodes| && node == nodes[k] && currentLine == old(currentLine)
        invariant k + (number - togo) < |before| && texts == Removed(before, k, number - togo)
        invariant togo < number ==> cachedCurrentLine == node
      {
        togo := togo - 1;
        DeleteNext(node, k, before, number - togo - 1);
        if cachedCurrentLine == null {
          RemovedAll(before, k, number - togo, number);
          break;
        }
        node := cachedCurrentLine;
      }
    }

    /** `edit_delete_line`: from the current line on, or from the first when the current line is
        0; in that case, unless nothing is left, the cached line is not the current one. None
        stands for a text that is no number, which deletes nothing but may cache a line. */
    method DeleteLine(number: Option<nat>)
      requires Valid()
      modifies this, repr`next, repr`prev
      ensures Listed() && currentLine <= lines && repr == old(repr)
      ensures texts == if old(texts) == [] || number == None then old(texts)
        else Removed(old(texts), if old(currentLine) == 0 then 0 else old(currentLine) - 1,
                     if number.value == 0 then 1 else number.value)
      ensures currentLine == if old(currentLine) <= lines then old(currentLine) else lines
      ensures Cached() <==> old(currentLine) > 0 || texts == []
    {
      var curr := FindPoint();
      if curr != null && number.Some? {
        var togo := if number.value == 0 then 1 else number.value;
        DeleteLines(curr, togo, if currentLine == 0 then 0 else currentLine - 1);
      }
    }

    /** `edit_new_line_node` */
    method NewLine(str: string, indent: bool)
      requires Valid()
      modifies this, repr`next, repr`prev
      ensures Valid() && fresh(repr - old(repr))
      ensures texts == With(old(texts), old(currentLine), if indent then "> " + str else str)
      ensures currentLine == old(currentLine) + 1
    {
      var node := new Node(if indent then "> " + str else str);
      NewLineNode(node);
    }

    /** The splitting loop of `internal_edit_start`. */
    method EnterText(text: string, indent: bool)
      requires Valid() && currentLine == lines
      modifies this, repr`next, repr`prev
      ensures Valid() && currentLine == lines && fresh(repr - old(repr))
      ensures texts == old(texts) + Lines(text, indent)
    {
      var current := Some(text);
      ghost var all := texts + Lines(text, indent);
      while current != None
        invariant Valid() && currentLine == lines && fresh(repr - old(repr))
        invariant texts + LinesOf(current, indent) == all
        decreases if current == None then 0 else |current.value| + 1
      {
        var end := LineEnd(current.value);
        var next := if end < |current.value| then Some(current.value[end + 1..]) else None;
        LinesStep(texts, current.value, indent, next);
        NewLine(current.value[..end], indent);
        current := next;
      }
      assert texts + [] == texts;
    }

    /** One line, as much of it as there is room for, and its end if there is room for it. */
    method DumpLine(before: string, line: string, len: nat) returns (buffer: string)
      requires |before| + 1 < len
      ensures |buffer| <= len && buffer <= before + line + (if isRaw then "" else "\n")
      ensures |buffer| + 1 < len ==> buffer == before + line + (if isRaw then "" else "\n")
    {
      buffer := before;
      var length := |line|;
      if length != 0 {
        if length + |buffer| > len {
          length := len - |buffer|;
        }
        buffer := buffer + line[..length];
      }
      if !isRaw && |buffer| + 1 < len {
        buffer := buffer + "\n";
      }
    }

    /** `edit_dump`: the beginning of the text, as far as the buffer goes, with at most one byte
        left over behind the end of a line; a buffer that is larger than the text takes all. */
    method Dump(len: nat) returns (buffer: string)
      requires Listed()
      ensures |buffer| <= len && buffer <= Dumped(texts, isRaw)
      ensures Size(texts, isRaw) < len ==> buffer == Dumped(texts, isRaw)
      ensures Size(texts, isRaw) >= len ==> |buffer| + 1 >= len
    {
      var scan := linesStart;
      buffer := "";
      ghost var k := 0;
      DumpedSize(texts, isRaw);
      while scan != null && |buffer| + 1 < len
        invariant k <= |texts| && scan == At(nodes, k) && |buffer| <= len
        invariant buffer <= Dumped(texts, isRaw)
        invariant |buffer| + 1 < len ==> buffer == Dumped(texts[..k], isRaw)
        decreases |texts| - k
      {
        DumpedStep(texts, k, isRaw);
        buffer := DumpLine(buffer, scan.value, len);
        scan := scan.next;
        k := k + 1;
      }
      assert texts[..|texts|] == texts;
    }

    /** `edit_malloc_dump`: all of the text, and its size is the one that was asked for. */
    method MallocDump() returns (buff: string, retLen: nat)
      requires Listed()
      ensures buff == Dumped(texts, isRaw) && retLen == |buff| == Size(texts, isRaw)
    {
      var len := characters + (if isRaw then 0 else lines) + 1;
      DumpedSize(texts, isRaw);
      buff := Dump(len + 1);
      retLen := |buff|;
      assert retLen == Size(texts, isRaw);
    }
  }

  // ---------------------------------------------------------------- lines and texts

  /** Where the first line of a text ends. */
  function LineEnd(t: string): (n: nat)
    ensures n <= |t| && (n < |t| ==> t[n] == '\n')
    ensures forall i :: 0 <= i < n ==> t[i] != '\n'
  {
    if t == "" || t[0] == '\n' then 0 else 1 + LineEnd(t[1..])
  }

  /** The lines that a text is entered as; a reply is indented. */
  function Lines(t: string, indent: bool): seq<string>
    decreases |t|
  {
    var n := LineEnd(t);
    [if indent then "> " + t[..n] else t[..n]] + if n < |t| then Lines(t[n + 1..], indent) else []
  }

  /** A reply is indented in each of its lines, which are otherwise those of the text. */
  lemma {:induction false} Indented(t: string)
    ensures |Lines(t, true)| == |Lines(t, false)|
    ensures forall i :: 0 <= i < |Lines(t, true)| ==> Lines(t, true)[i] == "> " + Lines(t, false)[i]
    decreases |t|
  {
    if LineEnd(t) < |t| {
      Indented(t[LineEnd(t) + 1..]);
    }
  }

  lemma ConcatLines(texts: seq<string>, first: string, rest: seq<string>)
    ensures With(texts, |texts|, first) + rest == texts + ([first] + rest)
  {
  }

  /** What is still to be entered. */
  function LinesOf(current: Option<string>, indent: bool): seq<string> {
    if current == None then [] else Lines(current.value, indent)
  }

  lemma LinesStep(texts: seq<string>, t: string, indent: bool, next: Option<string>)
    requires next == if LineEnd(t) < |t| then Some(t[LineEnd(t) + 1..]) else None
    ensures With(texts, |texts|, if indent then "> " + t[..LineEnd(t)] else t[..LineEnd(t)]) + LinesOf(next, indent)
      == texts + Lines(t, indent)
  {
    var n := LineEnd(t);
    ConcatLines(texts, if indent then "> " + t[..n] else t[..n], LinesOf(next, indent));
  }

  lemma DumpedCons(first: string, rest: seq<string>)
    ensures Dumped([first] + rest, false) == first + "\n" + Dumped(rest, false)
  {
    assert ([first] + rest)[1..] == rest;
  }

  lemma ConcatEnd(first: string, rest: string, t: string)
    requires |first| < |t| && t[..|first|] == first && t[|first|] == '\n' && t[|first| + 1..] == rest
    ensures first + "\n" + (rest + "\n") == t + "\n"
  {
    assert t == first + "\n" + rest;
  }

  /** A text that is entered and dumped comes out with one line end more. */
  lemma {:induction false} EnterDump(t: string)
    ensures Dumped(Lines(t, false), false) == t + "\n"
    decreases |t|
  {
    var n := LineEnd(t);
    if n < |t| {
      EnterDump(t[n + 1..]);
      DumpedCons(t[..n], Lines(t[n + 1..], false));
      ConcatEnd(t[..n], t[n + 1..], t);
    } else {
      DumpedCons(t, []);
      assert t[..n] == t && [t] + [] == [t];
    }
  }

  /** Starting the editor on a text and taking the text out again. */
  method EnterAndDump(text: string) returns (buff: string, retLen: nat)
    ensures buff == text + "\n" && retLen == |text| + 1
  {
    var base := new EditBase(false);
    base.EnterText(text, false);
    buff, retLen := base.MallocDump();
    assert [] + Lines(text, false) == Lines(text, false);
    EnterDump(text);
  }

  lemma {:induction false} DumpedSplit(a: seq<string>, b: seq<string>, isRaw: bool)
    ensures Dumped(a + b, isRaw) == Dumped(a, isRaw) + Dumped(b, isRaw)
    decreases |a|
  {
    if a == [] {
      assert a + b == b;
    } else {
      DumpedSplit(a[1..], b, isRaw);
      assert (a + b)[1..] == a[1..] + b;
    }
  }

  lemma DumpedStep(texts: seq<string>, k: nat, isRaw: bool)
    requires k < |texts|
    ensures Dumped(texts[..k + 1], isRaw) == Dumped(texts[..k], isRaw) + texts[k] + (if isRaw then "" else "\n")
    ensures Dumped(texts[..k + 1], isRaw) <= Dumped(texts, isRaw)
  {
    DumpedSplit(texts[..k], [texts[k]], isRaw);
    DumpedSplit(texts[..k + 1], texts[k + 1..], isRaw);
    assert texts[..k + 1] == texts[..k] + [texts[k]] && texts == texts[..k + 1] + texts[k + 1..];
    assert [texts[k]][1..] == [];
  }

  function Min(m: nat, n: nat): nat {
    if m < n then m else n
  }

  /** The lines without `n` of them from index k on, or without all that are there. */
  function Removed(texts: seq<string>, k: nat, n: nat): seq<string>
    requires k <= |texts|
  {
    texts[..k] + texts[Min(k + n, |texts|)..]
  }

  /** Deleting a line where one was put in gives back the lines of before. */
  lemma PutInAndRemoved(texts: seq<string>, p: nat, line: string)
    requires p <= |texts|
    ensures Removed(With(texts, p, line), p, 1) == texts
  {
    var r := With(texts, p, line);
    assert r[..p] == texts[..p] && r[p + 1..] == texts[p..];
  }

  lemma RemovedNone(texts: seq<string>, k: nat)
    requires k <= |texts|
    ensures Removed(texts, k, 0) == texts
  {
  }

  lemma RemovedMore(texts: seq<string>, k: nat, n: nat, now: seq<string>)
    requires k + n < |texts| && now == Removed(texts, k, n)
    ensures k < |now| && Without(now, k) == Removed(texts, k, n + 1)
    ensures |now| - 1 == |texts| - n - 1
  {
  }

  lemma RemovedAll(texts: seq<string>, k: nat, n: nat, m: nat)
    requires k + n == |texts| && n <= m
    ensures Removed(texts, k, n) == Removed(texts, k, m)
  {
  }

  // ---------------------------------------------------------------- counting words

  predicate AllBlank(s: string) {
    forall i :: 0 <= i < |s| ==> s[i] == ' ' || s[i] == '\t'
  }

  predicate NoneBlank(s: string) {
    forall i :: 0 <= i < |s| ==> s[i] != ' ' && s[i] != '\t'
  }

  /** Words, each behind blanks; only in front of the first there may be none. */
  predicate Apart(gaps: seq<string>, ws: seq<string>) {
    && |gaps| == |ws|
    && (forall i :: 0 <= i < |ws| ==> AllBlank(gaps[i]) && ws[i] != "" && NoneBlank(ws[i]))
    && (forall i :: 0 < i < |ws| ==> gaps[i] != "")
  }

  function Line(gaps: seq<string>, ws: seq<string>): string
    requires |gaps| == |ws|
  {
    if ws == [] then ""
    else Line(gaps[..|ws| - 1], ws[..|ws| - 1]) + gaps[|ws| - 1] + ws[|ws| - 1]
  }

  /** A line has as many words as it is written of. */
  lemma {:induction false} WordsOfLine(gaps: seq<string>, ws: seq<string>, trailing: string)
    requires Apart(gaps, ws) && AllBlank(trailing)
    ensures WordStarts(Line(gaps, ws) + trailing) == |ws|
    decreases |ws|
  {
    var line := Line(gaps, ws);
    if ws != [] {
      var front, gap, w := Line(gaps[..|ws| - 1], ws[..|ws| - 1]), gaps[|ws| - 1], ws[|ws| - 1];
      WordsOfLine(gaps[..|ws| - 1], ws[..|ws| - 1], gap);
      assert front + gap == line[..|front + gap|];
      LineEnds(gaps[..|ws| - 1], ws[..|ws| - 1], gap);
      RunStarts(line, |front + gap|, |line|, false);
      assert line[..|line|] == line;
    }
    assert (line + trailing)[..|line|] == line && (line + trailing)[..|line + trailing|] == line + trailing;
    RunStarts(line + trailing, |line|, |line + trailing|, true);
  }

  /** In front of the next word there is a blank, or nothing. */
  lemma LineEnds(gaps: seq<string>, ws: seq<string>, gap: string)
    requires Apart(gaps, ws) && AllBlank(gap) && (ws != [] ==> gap != "")
    ensures var t := Line(gaps, ws) + gap;
      t != "" ==> Blank(t[|t| - 1])
  {
  }

  // ---------------------------------------------------------------- a cached line that is wrong

  /** With two lines and the cursor above them, deleting a line caches one that is not current. */
  method WrongLineCached() returns (base: EditBase)
    ensures fresh(base) && base.Listed() && base.texts == ["second"] && base.currentLine == 0 && !base.Cached()
  {
    base := new EditBase(false);
    base.NewLine("first", false);
    base.NewLine("second", false);
    base.GotoTop();
    assert base.texts == ["first", "second"];
    base.DeleteLine(Some(1));
  }
}

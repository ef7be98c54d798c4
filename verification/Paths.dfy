/** The removal of ".." from absolute paths (remove_d in sys/tarfs.c): the loop that juggles indices, and the stack of
    components it stands for. */
module Paths {
  import opened Lists
  import opened CStrings

  const SLASH: char := '/'
  const DOT: char := '.'

  // ----- the loop, on the text written so far

  /** The last slash at or before position `p`; -1 when there is none. */
  function LastSlash(s: seq<char>, p: int): (q: int)
    requires p < |s|
    ensures q <= p || q == -1
    ensures -1 <= q && (q >= 0 ==> s[q] == SLASH)
    ensures forall x :: q < x <= p && x >= 0 ==> s[x] != SLASH
    decreases p + 1
  {
    if p < 0 then -1 else if s[p] == SLASH then p else LastSlash(s, p - 1)
  }

  /** What the loop makes of `path` from position `i` on, when it has written `out` and counted `c` dots. The second dot
      cuts `out` back to a slash; None when it would look for that slash in front of the buffer. */
  function Rest(path: seq<char>, i: nat, out: seq<char>, c: nat): Option<seq<char>>
    requires i <= |path|
    decreases |path| - i
  {
    if i == |path| then Some(out)
    else
      var c1 := if path[i] == DOT then c + 1 else c;
      if c1 == 2 && i != 2 then
        var q := if |out| >= 3 then LastSlash(out, |out| - 3) else -1;
        if q < 0 then None
        else if i + 1 < |path| then Rest(path, i + 2, out[..q + 1], 0)
        else Some(out[..q + 1])
      else Rest(path, i + 1, out + [path[i]], c1)
  }

  /** remove_d: what is left of a path. */
  function RemoveDots(path: seq<char>): Option<seq<char>> {
    Rest(path, 0, [], 0)
  }

  /** The loop is at position `i` with `out` written and `c` dots counted, and will end with `r`. */
  ghost predicate At(path: seq<char>, r: Option<seq<char>>, i: nat, out: seq<char>, c: nat) {
    |out| <= i <= |path| && NUL !in out && Rest(path, i, out, c) == r
  }

  lemma CopyStep(path: seq<char>, r: Option<seq<char>>, i: nat, out: seq<char>, c: nat, c1: nat)
    requires At(path, r, i, out, c) && i < |path| && NUL !in path && c1 == if path[i] == DOT then c + 1 else c
    requires c1 != 2 || i == 2
    ensures At(path, r, i + 1, out + [path[i]], c1)
  {
  }

  /** Where the text is cut: behind its last slash but for the last two characters. None when there is no such slash. */
  function CutAt(out: seq<char>): (n: Option<nat>)
    ensures n.Some? ==> n.value + 2 <= |out|
  {
    if |out| >= 3 && LastSlash(out, |out| - 3) >= 0 then Some(LastSlash(out, |out| - 3) + 1) else None
  }

  /** The second dot: where `out` is cut, and what happens to the two characters behind it. */
  lemma CutUnfolds(path: seq<char>, i: nat, out: seq<char>, c: nat)
    requires i < |path| && i != 2 && c == (if path[i] == DOT then 1 else 2)
    ensures CutAt(out) == None ==> Rest(path, i, out, c) == None
    ensures CutAt(out).Some? ==>
              var cut := out[..CutAt(out).value];
              Rest(path, i, out, c) == if i + 2 < |path|
                  then Rest(path, i + 3, cut + [path[i + 2]], if path[i + 2] == DOT then 1 else 0)
                                       else Some(cut)
  {
    if CutAt(out).Some? && i + 2 < |path| {
      var cut := out[..CutAt(out).value];
      assert Rest(path, i + 2, cut, 0) == Rest(path, i + 3, cut + [path[i + 2]], if path[i + 2] == DOT then 1 else 0);
    }
  }

  /** What the block behind the second dot leaves: the text `cut` up to a slash, and the position and count to go on
      with. */
  ghost predicate WasCut(path: seq<char>, r: Option<seq<char>>, i: nat, cut: seq<char>, c: nat) {
    && |cut| + 1 < i && i <= |path| && NUL !in cut
    && if i < |path| then At(path, r, i + 1, cut + [path[i]], c) else r == Some(cut)
  }

  lemma CutStep(path: seq<char>, r: Option<seq<char>>, i: nat, out: seq<char>, c: nat)
    requires At(path, r, i, out, c) && i < |path| && NUL !in path && i != 2 && c == (if path[i] == DOT then 1 else 2)
    ensures CutAt(out) == None ==> r == None
    ensures CutAt(out).Some? ==>
              var cut := out[..CutAt(out).value];
              if i + 2 <= |path| then WasCut(path, r, i + 2, cut, if i + 2 < |path| && path[i + 2] == DOT then 1 else 0)
              else WasCut(path, r, i + 1, cut, 0)
  {
    CutUnfolds(path, i, out, c);
    if CutAt(out).Some? {
      var cut := out[..CutAt(out).value];
      assert forall x :: 0 <= x < |cut| ==> cut[x] == out[x];
      if i + 2 < |path| {
        assert path[i + 2] != NUL;
      }
    }
  }

  /** The block of remove_d behind the second dot: back to the last slash, behind which the text now ends, and past the
      character that follows the dot. Where the source would go on reading in front of `b`, `inside` is false. */
  method CutBack(buff: seq<char>, i: nat, b: array<char>, j: nat) returns (inside: bool, i': nat, j': nat, c: nat)
    requires Terminated(buff) && i < |Text(buff)| && j <= b.Length
    modifies b
    ensures inside <==> CutAt(old(b[..j])).Some?
    ensures inside ==> Some(j') == CutAt(old(b[..j])) && b[..j'] == old(b[..j'])
    ensures inside ==> i' == if i + 2 <= |Text(buff)| then i + 2 else i + 1
    ensures inside ==> c == if i + 2 < |Text(buff)| && buff[i + 2] == DOT then 1 else 0
  {
    TerminatedEnds(buff);
    var p: int := j - 3;
    while p >= 0 && b[p] != SLASH
      invariant -1 <= p || p == j - 3
      invariant p <= j - 3 && (j >= 3 ==> LastSlash(b[..j], j - 3) == LastSlash(b[..j], p))
      decreases p
    {
      p := p - 1;
    }
    if p < 0 {
      return false, i, j, 0;
    }
    inside := true;
    p := p + 1;
    b[p] := NUL;
    c := 0;
    j' := p;
    if buff[i + 1] != NUL {
      i' := i + 2;
      if buff[i'] == DOT {
        c := 1;
      }
    } else {
      i' := i + 1;
    }
  }

  /** The end of the loop's body: the character at `i` is written, and a NUL is not passed. */
  method CopyNext(buff: seq<char>, i: nat, b: array<char>, j: nat) returns (i': nat)
    requires i < |buff| && j < b.Length
    modifies b
    ensures b[..j] == old(b[..j]) && b[j] == buff[i] && b[..j + 1] == old(b[..j]) + [buff[i]]
    ensures i' == if buff[i] == NUL then i else i + 1
  {
    i' := i;
    b[j] := buff[i];
    if b[j] != NUL {
      i' := i + 1;
    }
  }

  /** The loop stands at `i`, has written `out` to `b`, and counted `c` dots. After a cut at the end of the path it has
      also written the NUL. */
  ghost predicate Standing(path: seq<char>, r: Option<seq<char>>, i: nat, out: seq<char>, c: nat, j: nat,
                           text: seq<char>) {
    && i <= |path| && |out| < |text| && text[..|out|] == out && NUL !in out
    && if j == |out| then At(path, r, i, out, c)
        else i == |path| && j == |out| + 1 < |text| && text[|out|] == NUL && r == Some(out)
  }

  /** The loop of remove_d, which writes to `b` and needs one byte more than the path has. It stays inside `b` if and
      only if RemoveDots has a value, and that is then what `b` holds. */
  method RemoveD(buff: seq<char>, b: array<char>) returns (inside: bool)
    requires Terminated(buff) && |Text(buff)| < b.Length
    modifies b
    ensures inside <==> RemoveDots(Text(buff)).Some?
    ensures inside ==> Terminated(b[..]) && Some(Text(b[..])) == RemoveDots(Text(buff))
  {
    TerminatedEnds(buff);
    ghost var path := Text(buff);
    ghost var r := RemoveDots(path);
    ghost var out: seq<char> := [];
    var i, j, c := 0, 0, 0;
    while buff[i] != NUL
      invariant Standing(path, r, i, out, c, j, b[..])
      decreases |path| - i, |out| + 1 - j
    {
      assert buff[i] == path[i] && b[..j] == out;
      ghost var c0 := c;
      if buff[i] == DOT {
        c := c + 1;
      }
      if c == 2 && i != 2 {
        CutStep(path, r, i, out, c0);
        inside, i, j, c := CutBack(buff, i, b, j);
        if !inside {
          return;
        }
        out := out[..j];
        assert WasCut(path, r, i, out, c);
      } else {
        CopyStep(path, r, i, out, c0, c);
      }
      assert b[..j] == out;
      if i < |path| {
        assert buff[i] == path[i] && At(path, r, i + 1, out + [buff[i]], c);
        out := out + [buff[i]];
      }
      i := CopyNext(buff, i, b, j);
      j := j + 1;
    }
    b[j] := NUL;
    TextIs(b[..], |out|);
    inside := true;
  }

  // ----- components

  const UP: seq<char> := ".."

  /** A component without dots, slashes and NULs. */
  predicate PlainName(s: seq<char>) {
    DOT !in s && SLASH !in s && NUL !in s
  }

  predicate Component(s: seq<char>) {
    s == UP || PlainName(s)
  }

  ghost predicate Components(cs: seq<seq<char>>) {
    forall k :: 0 <= k < |cs| ==> Component(cs[k])
  }

  /** The path with the given components; one that ends in a slash has an empty last component. */
  function Show(cs: seq<seq<char>>): seq<char> {
    if cs == [] then [] else [SLASH] + cs[0] + Show(cs[1..])
  }

  /** What the components mean, on top of `stack`: ".." takes the last component away, and at the end of a path it
      leaves the directory itself, with its slash. None when it would climb above the root. */
  function Resolve(stack: seq<seq<char>>, cs: seq<seq<char>>): Option<seq<seq<char>>>
    decreases |cs|
  {
    if cs == [] then Some(stack)
    else if cs[0] != UP then Resolve(stack + [cs[0]], cs[1..])
    else if stack == [] then None
    else if |cs| == 1 then Some(stack[..|stack| - 1] + [[]])
    else Resolve(stack[..|stack| - 1], cs[1..])
  }

  /** A ".." takes back the name before it, wherever they stand; at the end of the path it leaves the slash. */
  lemma {:induction false} UpTakesBack(stack: seq<seq<char>>, cs: seq<seq<char>>, name: seq<char>, rest: seq<seq<char>>)
    requires name != UP
    ensures rest != [] ==> Resolve(stack, cs + [name, UP] + rest) == Resolve(stack, cs + rest)
    ensures Resolve(stack, cs + [name, UP]) == Resolve(stack, cs + [[]])
    decreases |cs|
  {
    if cs == [] {
      NameThenUp(stack, name, rest);
    } else {
      var tail := cs[1..];
      assert (cs + [name, UP] + rest)[1..] == tail + [name, UP] + rest && (cs + rest)[1..] == tail + rest;
      assert (cs + [name, UP])[1..] == tail + [name, UP] && (cs + [[]])[1..] == tail + [[]];
      if cs[0] != UP {
        UpTakesBack(stack + [cs[0]], tail, name, rest);
      } else if stack != [] {
        UpTakesBack(stack[..|stack| - 1], tail, name, rest);
      }
    }
  }

  lemma NameThenUp(stack: seq<seq<char>>, name: seq<char>, rest: seq<seq<char>>)
    requires name != UP
    ensures rest != [] ==> Resolve(stack, [] + [name, UP] + rest) == Resolve(stack, [] + rest)
    ensures Resolve(stack, [] + [name, UP]) == Resolve(stack, [] + [[]])
  {
    var pushed := stack + [name];
    assert pushed[..|pushed| - 1] == stack;
    assert [] + [name, UP] + rest == [name] + ([UP] + rest) && ([name] + ([UP] + rest))[1..] == [UP] + rest;
    assert ([UP] + rest)[1..] == rest && [] + rest == rest;
    assert [] + [name, UP] == [name, UP] && [name, UP][1..] == [UP];
    var empty: seq<seq<char>> := [[]];
    assert [] + empty == empty && empty[1..] == [];
  }

  lemma {:induction false} Pushed(stack: seq<seq<char>>, name: seq<char>)
    ensures Show(stack + [name]) == Show(stack) + [SLASH] + name
  {
    if stack == [] {
      assert [name][1..] == [];
      assert Show([name]) == [SLASH] + name + [];
    } else {
      Pushed(stack[1..], name);
      assert (stack + [name])[1..] == stack[1..] + [name];
    }
  }

  /** Characters that are not dots are copied. */
  lemma {:induction false} Copies(path: seq<char>, i: nat, out: seq<char>, c: nat, n: nat)
    requires i + n <= |path|
    requires c < 2 && forall x :: i <= x < i + n ==> path[x] != DOT
    ensures Rest(path, i, out, c) == Rest(path, i + n, out + path[i..i + n], c)
    decreases n
  {
    if n == 0 {
      assert out + path[i..i] == out;
    } else {
      Copies(path, i + 1, out + [path[i]], c, n - 1);
      assert out + [path[i]] + path[i + 1..i + n] == out + path[i..i + n];
    }
  }

  lemma {:induction false} LastSlashIs(s: seq<char>, p: int, q: nat)
    requires q <= p < |s| && s[q] == SLASH && forall x :: q < x <= p ==> s[x] != SLASH
    ensures LastSlash(s, p) == q
    decreases p
  {
    if p > q {
      LastSlashIs(s, p - 1, q);
    }
  }

  /** One "..": the text loses its last component. */
  lemma UpCuts(path: seq<char>, i: nat, below: seq<char>, last: seq<char>, out: seq<char>)
    requires i + 2 <= |path| && path[i] == DOT && path[i + 1] == DOT && |out| <= i
    requires PlainName(last) && out == below + [SLASH] + last + [SLASH]
    ensures Rest(path, i, out, 0) == if i + 2 < |path| then Rest(path, i + 3, below + [SLASH], 0)
            else Some(below + [SLASH])
  {
    var out1 := out + [DOT];
    forall x | |below| < x <= |out1| - 3
      ensures out1[x] != SLASH
    {
      assert out1[x] == last[x - |below| - 1];
    }
    LastSlashIs(out1, |out1| - 3, |below|);
    assert out1[..|below| + 1] == below + [SLASH];
    assert Rest(path, i, out, 0) == Rest(path, i + 1, out1, 1);
  }

  /** The loop stands behind a slash, with `stack` written and `cs` to come. */
  ghost predicate Between(path: seq<char>, i: nat, stack: seq<seq<char>>, cs: seq<seq<char>>, out: seq<char>) {
    && cs != [] && (forall k :: 0 <= k < |stack| ==> PlainName(stack[k]))
    && |out| <= i <= |path| && path[i..] == cs[0] + Show(cs[1..]) && out == Show(stack) + [SLASH]
  }

  lemma ComponentAt(path: seq<char>, i: nat, stack: seq<seq<char>>, cs: seq<seq<char>>, out: seq<char>)
    requires Between(path, i, stack, cs, out)
    ensures i + |cs[0]| <= |path| && path[i..i + |cs[0]|] == cs[0]
    ensures |cs| == 1 ==> i + |cs[0]| == |path|
    ensures |cs| > 1 ==>
            i + |cs[0]| < |path| && path[i + |cs[0]|] == SLASH && path[i + |cs[0]| + 1..] == cs[1] + Show(cs[2..])
  {
    var n, tail := |cs[0]|, path[i..];
    assert tail[..n] == cs[0] && path[i..i + n] == tail[..n];
    if |cs| > 1 {
      assert cs[1..][1..] == cs[2..];
      assert tail[n..] == [SLASH] + cs[1] + Show(cs[2..]);
      assert tail[n..][1..] == cs[1] + Show(cs[2..]);
      assert path[i + n + 1..] == tail[n..][1..];
    }
  }

  lemma NameWalks(path: seq<char>, i: nat, stack: seq<seq<char>>, cs: seq<seq<char>>, out: seq<char>)
    requires Between(path, i, stack, cs, out) && PlainName(cs[0])
    ensures var n, stack1 := |cs[0]|, stack + [cs[0]];
            if |cs| == 1 then Rest(path, i, out, 0) == Some(Show(stack1))
            else Between(path, i + n + 1, stack1, cs[1..], Show(stack1) + [SLASH])
                 && Rest(path, i, out, 0) == Rest(path, i + n + 1, Show(stack1) + [SLASH], 0)
  {
    ComponentAt(path, i, stack, cs, out);
    Pushed(stack, cs[0]);
    var n := |cs[0]|;
    forall x | i <= x < i + n
      ensures path[x] != DOT
    {
      assert path[x] == cs[0][x - i];
    }
    if |cs| == 1 {
      Copies(path, i, out, 0, n);
    } else {
      Copies(path, i, out, 0, n + 1);
      assert path[i..i + n + 1] == cs[0] + [SLASH];
      assert out + path[i..i + n + 1] == Show(stack + [cs[0]]) + [SLASH];
      assert cs[1..][1..] == cs[2..];
    }
  }

  lemma UpWalks(path: seq<char>, i: nat, stack: seq<seq<char>>, cs: seq<seq<char>>, out: seq<char>)
    requires Between(path, i, stack, cs, out) && cs[0] == UP && stack != []
    ensures var stack1 := stack[..|stack| - 1];
            if |cs| == 1 then Rest(path, i, out, 0) == Some(Show(stack1 + [[]]))
            else Between(path, i + 3, stack1, cs[1..], Show(stack1) + [SLASH])
                 && Rest(path, i, out, 0) == Rest(path, i + 3, Show(stack1) + [SLASH], 0)
  {
    var stack1, last := stack[..|stack| - 1], stack[|stack| - 1];
    assert stack == stack1 + [last] && |cs[0]| == 2;
    Pushed(stack1, last);
    Pushed(stack1, []);
    ComponentAt(path, i, stack, cs, out);
    assert path[i] == path[i..i + 2][0] && path[i + 1] == path[i..i + 2][1];
    UpCuts(path, i, Show(stack1), last, out);
    if |cs| == 1 {
      assert Show(stack1 + [[]]) == Show(stack1) + [SLASH];
    } else {
      assert cs[1..][1..] == cs[2..];
      assert |Show(stack1) + [SLASH]| <= i + 3;
    }
  }

  /** A ".." with nothing to take away: the loop would look for a slash in front of its buffer, except where it takes no
      notice, at the start of the path. */
  lemma UpStops(path: seq<char>, i: nat, cs: seq<seq<char>>, out: seq<char>)
    requires Between(path, i, [], cs, out) && cs[0] == UP && i > 1
    ensures Rest(path, i, out, 0) == None
  {
    ComponentAt(path, i, [], cs, out);
    assert path[i] == path[i..i + 2][0] && path[i + 1] == path[i..i + 2][1];
    assert Rest(path, i, out, 0) == Rest(path, i + 1, out + [DOT], 1);
  }

  /** What is shown of the components that are left; nothing when they climb above the root. */
  function Shown(ns: Option<seq<seq<char>>>): Option<seq<char>> {
    match ns
    case None => None
    case Some(names) => Some(Show(names))
  }

  /** From behind a slash on, the loop does to its text what Resolve does to the stack. */
  lemma {:induction false} Walks(path: seq<char>, i: nat, stack: seq<seq<char>>, cs: seq<seq<char>>, out: seq<char>)
    requires Between(path, i, stack, cs, out) && Components(cs) && (i > 1 || cs[0] != UP)
    ensures Rest(path, i, out, 0) == Shown(Resolve(stack, cs))
    decreases |cs|
  {
    if cs[0] != UP {
      NameWalks(path, i, stack, cs, out);
      if |cs| > 1 {
        Walks(path, i + |cs[0]| + 1, stack + [cs[0]], cs[1..], Show(stack + [cs[0]]) + [SLASH]);
      } else {
        assert Resolve(stack + [cs[0]], cs[1..]) == Some(stack + [cs[0]]);
      }
    } else if stack == [] {
      UpStops(path, i, cs, out);
    } else {
      UpWalks(path, i, stack, cs, out);
      if |cs| > 1 {
        Walks(path, i + 3, stack[..|stack| - 1], cs[1..], Show(stack[..|stack| - 1]) + [SLASH]);
      }
    }
  }

  lemma AtRoot(cs: seq<seq<char>>)
    requires cs != []
    ensures Show(cs)[1..] == cs[0] + Show(cs[1..]) && Rest(Show(cs), 0, [], 0) == Rest(Show(cs), 1, [SLASH], 0)
    ensures Show([]) + [SLASH] == [SLASH]
  {
    var path := Show(cs);
    assert path[1..] == cs[0] + Show(cs[1..]);
    assert path[0] == SLASH && [] + [path[0]] == [SLASH];
  }

  /** remove_d computes the normal form of every path of plain names and ".." that does not begin with "..", and it has
      none, reading in front of its buffer, exactly on those that climb above the root. */
  lemma NormalForm(cs: seq<seq<char>>)
    requires cs != [] && Components(cs) && cs[0] != UP
    ensures RemoveDots(Show(cs)) == Shown(Resolve([], cs))
    ensures RemoveDots(Show(cs)).Some? <==> Resolve([], cs).Some?
  {
    AtRoot(cs);
    Walks(Show(cs), 1, [], cs, [SLASH]);
  }

  /** What a path goes on as behind a leading "..": the first character of the next component is lost, and with an empty
      component the slash that follows it. */
  function Bitten(cs: seq<seq<char>>): seq<seq<char>>
    requires |cs| > 1
  {
    if cs[1] != [] then [cs[1][1..]] + cs[2..] else if |cs| > 2 then cs[2..] else [[]]
  }

  lemma BehindUp(cs: seq<seq<char>>)
    requires |cs| > 1 && cs[0] == UP
    ensures var path := Show(cs);
            && |path| >= 4 && path[0] == SLASH && path[1] == path[2] == DOT && path[3] == SLASH
            && path[4..] == cs[1] + Show(cs[2..])
  {
    var path, tail, rest := Show(cs), Show(cs[1..]), Show(cs[2..]);
    assert cs[1..][1..] == cs[2..];
    assert tail == [SLASH] + cs[1] + rest && tail[1..] == cs[1] + rest;
    assert path == [SLASH] + UP + tail && path[3..] == tail;
    assert path[4..] == path[3..][1..];
  }

  lemma OneLess(path: seq<char>, name: seq<char>, rest: seq<char>)
    requires |path| >= 4 && path[4..] == name + rest && name != []
    ensures |path| > 4 && path[5..] == name[1..] + rest
  {
    assert |path[4..]| == |path| - 4;
    assert (name + rest)[1..] == name[1..] + rest;
    assert path[5..] == path[4..][1..];
  }

  lemma BittenText(cs: seq<seq<char>>)
    requires |cs| > 1 && Components(cs) && cs[0] == UP && cs[1] != UP
    ensures Components(Bitten(cs)) && Bitten(cs) != [] && |Show(cs)| >= 4
    ensures if |Show(cs)| == 4 then Bitten(cs) == [[]] else Show(cs)[5..] == Bitten(cs)[0] + Show(Bitten(cs)[1..])
  {
    BehindUp(cs);
    if cs[1] != [] {
      assert PlainName(cs[1]);
      assert PlainName(cs[1][1..]);
      assert Bitten(cs)[1..] == cs[2..];
      OneLess(Show(cs), cs[1], Show(cs[2..]));
    } else if |cs| > 2 {
      var behind := cs[2] + Show(cs[2..][1..]);
      assert Show(cs)[4..] == [SLASH] + behind;
      OneLess(Show(cs), [SLASH], behind);
      assert [SLASH][1..] + behind == behind;
    } else {
      assert Show(cs)[4..] == [];
    }
  }

  lemma LeadingDots(path: seq<char>)
    requires |path| >= 4 && path[0] == SLASH && path[1] == path[2] == DOT && path[3] == SLASH
    ensures RemoveDots(path) == if |path| == 4 then Some([SLASH]) else Rest(path, 5, [SLASH], 0)
  {
    var out := path[..3];
    FirstThree(path, 2);
    assert LastSlash(out, 0) == 0 && out[..1] == [SLASH];
    assert Rest(path, 3, out, 2) == if 4 < |path| then Rest(path, 5, out[..1], 0) else Some(out[..1]);
  }

  /** Of a path that begins with ".." the code keeps what follows, less its first character: "/../a" comes out as "/",
      "/../ab/c" as "/b/c". "/.." itself stays as it is. */
  lemma LeadingUp(cs: seq<seq<char>>)
    requires cs != [] && Components(cs) && cs[0] == UP && (|cs| > 1 ==> cs[1] != UP)
    ensures Resolve([], cs) == None
    ensures RemoveDots(Show(cs)) == if |cs| == 1 then Some(Show(cs)) else Shown(Resolve([], Bitten(cs)))
  {
    var path := Show(cs);
    if |cs| == 1 {
      OnlyUp(cs);
    } else {
      BehindUp(cs);
      BittenText(cs);
      LeadingDots(path);
      if |path| == 4 {
        OnlySlash(Bitten(cs));
      } else {
        AtRoot(Bitten(cs));
        Walks(path, 5, [], Bitten(cs), [SLASH]);
      }
    }
  }

  lemma OnlyUp(cs: seq<seq<char>>)
    requires cs == [UP]
    ensures RemoveDots(Show(cs)) == Some(Show(cs))
  {
    var path := Show(cs);
    assert Show(cs[1..]) == [] && path == [SLASH] + UP + [];
    UnchangedIff(path);
  }

  lemma OnlySlash(ns: seq<seq<char>>)
    requires ns == [[]]
    ensures Shown(Resolve([], ns)) == Some([SLASH])
  {
    NamesResolve([], ns);
    assert [] + ns == ns;
    assert Show(ns) == [SLASH] + [] + [] == [SLASH];
  }

  lemma {:induction false} ResolvedIsPlain(stack: seq<seq<char>>, cs: seq<seq<char>>)
    requires Components(cs) && (forall k :: 0 <= k < |stack| ==> PlainName(stack[k])) && Resolve(stack, cs).Some?
    ensures var r := Resolve(stack, cs).value;
            (forall k :: 0 <= k < |r| ==> PlainName(r[k])) && (cs != [] ==> r != [])
    decreases |cs|
  {
    if cs != [] {
      if cs[0] != UP {
        ResolvedIsPlain(stack + [cs[0]], cs[1..]);
      } else if |cs| > 1 {
        ResolvedIsPlain(stack[..|stack| - 1], cs[1..]);
      }
    }
  }

  lemma {:induction false} NamesResolve(stack: seq<seq<char>>, names: seq<seq<char>>)
    requires forall k :: 0 <= k < |names| ==> PlainName(names[k])
    ensures Resolve(stack, names) == Some(stack + names)
    decreases |names|
  {
    if names == [] {
      assert stack + names == stack;
    } else {
      NamesResolve(stack + [names[0]], names[1..]);
      assert stack + [names[0]] + names[1..] == stack + names;
    }
  }

  /** A second pass changes nothing. */
  lemma RemoveDotsIdempotent(cs: seq<seq<char>>)
    requires cs != [] && Components(cs) && Resolve([], cs).Some?
    ensures var once := RemoveDots(Show(cs)); once.Some? && RemoveDots(once.value) == once
  {
    var ns := Resolve([], cs).value;
    NormalForm(cs);
    ResolvedIsPlain([], cs);
    NamesResolve([], ns);
    assert [] + ns == ns;
    NormalForm(ns);
  }

  // ----- names with dots

  function Dots(s: seq<char>): nat {
    if s == [] then 0 else (if s[0] == DOT then 1 else 0) + Dots(s[1..])
  }

  lemma {:induction false} NoCut(path: seq<char>, i: nat, out: seq<char>, c: nat)
    requires i <= |path| && (c + Dots(path[i..]) <= 1 || c >= 3)
    ensures Rest(path, i, out, c) == Some(out + path[i..])
    decreases |path| - i
  {
    if i == |path| {
      assert out + path[i..] == out;
    } else {
      assert path[i..][1..] == path[i + 1..];
      NoCut(path, i + 1, out + [path[i]], if path[i] == DOT then c + 1 else c);
      assert out + [path[i]] + path[i + 1..] == out + path[i..];
    }
  }

  lemma {:induction false} NeverLonger(path: seq<char>, i: nat, out: seq<char>, c: nat)
    requires i <= |path| && Rest(path, i, out, c).Some?
    ensures |Rest(path, i, out, c).value| <= |out| + |path| - i
    decreases |path| - i
  {
    if i < |path| {
      var c1 := if path[i] == DOT then c + 1 else c;
      if c1 == 2 && i != 2 {
        var cut := out[..LastSlash(out, |out| - 3) + 1];
        if i + 1 < |path| {
          NeverLonger(path, i + 2, cut, 0);
        }
      } else {
        NeverLonger(path, i + 1, out + [path[i]], c1);
      }
    }
  }

  /** A second dot further on cuts something off. */
  lemma {:induction false} CutShortens(path: seq<char>, i: nat, out: seq<char>, c: nat)
    requires (3 <= i || (i == 2 && c == 0)) && i <= |path| && Rest(path, i, out, c).Some?
    requires (c <= 1 && c + Dots(path[i..]) >= 2) || (c == 2 && i < |path| && path[i] != DOT)
    ensures |Rest(path, i, out, c).value| < |out| + |path| - i
    decreases |path| - i
  {
    assert i < |path| ==> path[i..][1..] == path[i + 1..];
    var c1 := if path[i] == DOT then c + 1 else c;
    if c1 == 2 {
      if i + 1 < |path| {
        NeverLonger(path, i + 2, out[..LastSlash(out, |out| - 3) + 1], 0);
      }
    } else {
      CutShortens(path, i + 1, out + [path[i]], c1);
    }
  }

  // ----- names with a dot behind the last ".."

  /** The stack after components that are not the last of the path. */
  function Popped(stack: seq<seq<char>>, cs: seq<seq<char>>): Option<seq<seq<char>>>
    decreases |cs|
  {
    if cs == [] then Some(stack)
    else if cs[0] != UP then Popped(stack + [cs[0]], cs[1..])
    else if stack == [] then None
    else Popped(stack[..|stack| - 1], cs[1..])
  }

  /** A name that may have dots, but is not "..". */
  predicate DottedName(s: seq<char>) {
    s != UP && SLASH !in s && NUL !in s
  }

  lemma {:induction false} NamesPushed(stack: seq<seq<char>>, names: seq<seq<char>>)
    requires forall k :: 0 <= k < |names| ==> names[k] != UP
    ensures Resolve(stack, names) == Some(stack + names)
    decreases |names|
  {
    if names == [] {
      assert stack + names == stack;
    } else {
      NamesPushed(stack + [names[0]], names[1..]);
      assert stack + [names[0]] + names[1..] == stack + names;
    }
  }

  lemma {:induction false} ResolveSplits(stack: seq<seq<char>>, cs: seq<seq<char>>, names: seq<seq<char>>)
    requires names != [] && forall k :: 0 <= k < |names| ==> names[k] != UP
    ensures Resolve(stack, cs + names)
            == match Popped(stack, cs) case None => None case Some(st) => Some(st + names)
    decreases |cs|
  {
    if cs == [] {
      assert cs + names == names;
      NamesPushed(stack, names);
    } else {
      assert (cs + names)[1..] == cs[1..] + names;
      if cs[0] != UP {
        ResolveSplits(stack + [cs[0]], cs[1..], names);
      } else if stack != [] {
        ResolveSplits(stack[..|stack| - 1], cs[1..], names);
      }
    }
  }

  lemma {:induction false} ShowAll(stack: seq<seq<char>>, names: seq<seq<char>>)
    ensures Show(stack + names) == Show(stack) + Show(names)
  {
    if stack == [] {
      assert stack + names == names;
    } else {
      ShowAll(stack[1..], names);
      assert (stack + names)[1..] == stack[1..] + names;
    }
  }

  /** The components before the names, walked as ever; None when they climb above the root. */
  lemma {:induction false} WalksTo(path: seq<char>, i: nat, stack: seq<seq<char>>, cs: seq<seq<char>>,
                                   names: seq<seq<char>>, out: seq<char>)
      returns (j: nat)
    requires names != [] && Components(cs) && Between(path, i, stack, cs + names, out)
             && (i > 1 || (cs != [] && cs[0] != UP))
    ensures match Popped(stack, cs)
            case None => Rest(path, i, out, 0) == None
            case Some(st) =>
              && j > 1 && Between(path, j, st, names, Show(st) + [SLASH])
              && Rest(path, i, out, 0) == Rest(path, j, Show(st) + [SLASH], 0)
    decreases |cs|
  {
    j := i;
    if cs == [] {
      assert cs + names == names;
    } else {
      assert (cs + names)[0] == cs[0] && (cs + names)[1..] == cs[1..] + names;
      if cs[0] != UP {
        NameWalks(path, i, stack, cs + names, out);
        j := WalksTo(path, i + |cs[0]| + 1, stack + [cs[0]], cs[1..], names, Show(stack + [cs[0]]) + [SLASH]);
      } else if stack == [] {
        UpStops(path, i, cs + names, out);
      } else {
        UpWalks(path, i, stack, cs + names, out);
        j := WalksTo(path, i + 3, stack[..|stack| - 1], cs[1..], names, Show(stack[..|stack| - 1]) + [SLASH]);
      }
    }
  }

  lemma TailText(tail: seq<char>, st: seq<seq<char>>, names: seq<seq<char>>)
    requires names != [] && tail == names[0] + Show(names[1..])
    ensures Show(names) == [SLASH] + tail && Show(st + names) == Show(st) + [SLASH] + tail
  {
    Grouped([SLASH], names[0], Show(names[1..]));
    ShowAll(st, names);
    Grouped(Show(st), [SLASH], tail);
  }

  lemma Grouped(a: seq<char>, b: seq<char>, c: seq<char>)
    ensures a + b + c == a + (b + c)
  {
  }

  lemma DotsBehindSlash(tail: seq<char>)
    ensures Dots([SLASH] + tail) == Dots(tail)
  {
    assert ([SLASH] + tail)[1..] == tail;
  }

  lemma DottedTail(path: seq<char>, j: nat, st: seq<seq<char>>, names: seq<seq<char>>)
    requires Between(path, j, st, names, Show(st) + [SLASH]) && j > 1
    ensures Rest(path, j, Show(st) + [SLASH], 0) == Some(Show(st + names)) <==> Dots(Show(names)) <= 1
  {
    TailText(path[j..], st, names);
    DotsBehindSlash(path[j..]);
    TailIff(path, j, Show(st) + [SLASH]);
  }

  /** From behind a slash on, the rest of the path is copied if and only if it has at most one dot. */
  lemma TailIff(path: seq<char>, j: nat, out: seq<char>)
    requires 1 < j <= |path|
    ensures Rest(path, j, out, 0) == Some(out + path[j..]) <==> Dots(path[j..]) <= 1
  {
    if Dots(path[j..]) <= 1 {
      NoCut(path, j, out, 0);
    } else if Rest(path, j, out, 0).Some? {
      CutShortens(path, j, out, 0);
    }
  }

  /** Behind the last "..", names may have dots: the normal form comes out if and only if the path climbs above the
      root, when there is none, or those names have at most one dot in all. */
  lemma DottedNamesIff(cs: seq<seq<char>>, names: seq<seq<char>>)
    requires cs != [] && Components(cs) && cs[0] != UP
    requires names != [] && forall k :: 0 <= k < |names| ==> DottedName(names[k])
    ensures RemoveDots(Show(cs + names)) == Shown(Resolve([], cs + names))
            <==> Resolve([], cs + names) == None || Dots(Show(names)) <= 1
  {
    var all := cs + names;
    AtRoot(all);
    assert all[0] == cs[0];
    ResolveSplits([], cs, names);
    var j := WalksTo(Show(all), 1, [], cs, names, [SLASH]);
    if Popped([], cs).Some? {
      DottedTail(Show(all), j, Popped([], cs).value, names);
    }
  }

  /** An absolute path comes back as it was if and only if it has at most one dot, or begins with "/.." and then ends or
      goes on with a third dot: two names with one dot each are already taken for a "..". */
  lemma UnchangedIff(path: seq<char>)
    requires path != [] && path[0] == SLASH
    ensures RemoveDots(path) == Some(path)
            <==> Dots(path) <= 1 || (|path| >= 3 && path[1] == DOT && path[2] == DOT && (|path| == 3 || path[3] == DOT))
  {
    if |path| < 3 {
      ShortPath(path);
    } else {
      var c := (if path[1] == DOT then 1 else 0) + (if path[2] == DOT then 1 else 0);
      FirstThree(path, c);
      if (c == 2 && |path| > 3 && path[3] != DOT) || (c <= 1 && c + Dots(path[3..]) >= 2) {
        if Rest(path, 3, path[..3], c).Some? {
          CutShortens(path, 3, path[..3], c);
        }
      } else if c == 2 && |path| > 3 {
        assert Rest(path, 3, path[..3], 2) == Rest(path, 4, path[..3] + [path[3]], 3);
        NoCut(path, 4, path[..3] + [path[3]], 3);
        assert path[..3] + [path[3]] + path[4..] == path;
      } else if c <= 1 {
        NoCut(path, 3, path[..3], c);
        assert path[..3] + path[3..] == path;
      } else {
        assert path[..3] == path;
      }
    }
  }

  lemma ShortPath(path: seq<char>)
    requires 0 < |path| < 3 && path[0] == SLASH
    ensures RemoveDots(path) == Some(path) && Dots(path) <= 1
  {
    assert path[0..] == path;
    assert Dots(path) == Dots(path[1..]);
    if |path| == 2 {
      assert path[1..][1..] == [];
    }
    NoCut(path, 0, [], 0);
    assert [] + path == path;
  }

  lemma FirstThree(path: seq<char>, c: nat)
    requires |path| >= 3 && path[0] == SLASH
             && c == (if path[1] == DOT then 1 else 0) + (if path[2] == DOT then 1 else 0)
    ensures RemoveDots(path) == Rest(path, 3, path[..3], c) && Dots(path) == c + Dots(path[3..])
  {
    assert path[1..][1..] == path[2..] && path[2..][1..] == path[3..];
    assert Dots(path) == Dots(path[1..]);
    assert Dots(path[1..]) == (if path[1] == DOT then 1 else 0) + Dots(path[2..]);
    assert Dots(path[2..]) == (if path[2] == DOT then 1 else 0) + Dots(path[3..]);
    var c1 := if path[1] == DOT then 1 else 0;
    assert [] + [path[0]] == [path[0]];
    assert Rest(path, 0, [], 0) == Rest(path, 1, [path[0]], 0);
    assert Rest(path, 1, [path[0]], 0) == Rest(path, 2, [path[0]] + [path[1]], c1);
    assert [path[0]] + [path[1]] + [path[2]] == path[..3];
    assert Rest(path, 2, [path[0]] + [path[1]], c1) == Rest(path, 3, path[..3], c);
  }
}

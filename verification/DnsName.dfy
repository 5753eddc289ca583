/** Domain names on the wire: labels and compression pointers (section 4.1.4 of RFC 1035), with the
    three walkers over them. Text is kept as bytes. */
module DnsName {
  import opened Collections
  import opened Text

  type byte = n: nat | n < 0x100
  type Bytes = seq<byte>

  const DOT: byte := 46
  const MAX_HOPS: nat := 8

  datatype NameError = TooManyHops | Overrun | TruncatedPointer | PointerOutOfRange | BadLabel

  /** The two top bits mark a compression pointer. */
  predicate IsPointer(b: byte) { b / 64 == 3 }

  /** Where the pointer at `pos` leads, or why it is refused. */
  function Target(bytes: Bytes, pos: nat): (r: Result<nat, NameError>)
    requires pos < |bytes|
    ensures r.Ok? ==> r.value < |bytes| && pos + 2 <= |bytes|
  {
    if pos + 1 >= |bytes| then Err(TruncatedPointer)
    else
      var high: nat, low: nat := bytes[pos] % 64, bytes[pos + 1];
      var target := high * 256 + low;
      if target >= |bytes| then Err(PointerOutOfRange) else Ok(target)
  }

  // ----- what a well-formed name is -----

  /** The bytes at `pos` are a name whose resolution follows exactly `k` pointers. */
  ghost predicate NameAt(bytes: Bytes, pos: nat, k: nat)
    decreases k, |bytes| - pos
  {
    && pos < |bytes|
    && var b := bytes[pos];
      if b == 0 then k == 0
      else if IsPointer(b) then k > 0 && Target(bytes, pos).Ok? && NameAt(bytes, Target(bytes, pos).value, k - 1)
      else b <= 63 && pos + 1 + b <= |bytes| && NameAt(bytes, pos + 1 + b, k)
  }

  /** The position just past the name in the message: past the root label, or past the first pointer. */
  function EndOf(bytes: Bytes, pos: nat): nat
    decreases |bytes| - pos
  {
    if pos >= |bytes| then pos
    else if bytes[pos] == 0 then pos + 1
    else if IsPointer(bytes[pos]) then pos + 2
    else EndOf(bytes, pos + 1 + bytes[pos])
  }

  lemma PointersUnique(bytes: Bytes, pos: nat, j: nat, k: nat)
    requires NameAt(bytes, pos, j) && NameAt(bytes, pos, k)
    ensures j == k
    decreases j, |bytes| - pos
  {
    var b := bytes[pos];
    if b != 0 {
      if IsPointer(b) {
        PointersUnique(bytes, Target(bytes, pos).value, j - 1, k - 1);
      } else {
        PointersUnique(bytes, pos + 1 + b, j, k);
      }
    }
  }

  /** The name at `pos` resolves within `limit` pointers. */
  ghost predicate Within(bytes: Bytes, pos: nat, limit: int) {
    exists k: nat :: k <= limit && NameAt(bytes, pos, k)
  }

  lemma WithinSteps(bytes: Bytes, pos: nat, limit: int)
    requires pos < |bytes|
    ensures var b := bytes[pos];
      Within(bytes, pos, limit) <==>
        if b == 0 then limit >= 0
        else if IsPointer(b) then Target(bytes, pos).Ok? && Within(bytes, Target(bytes, pos).value, limit - 1)
        else b <= 63 && pos + 1 + b <= |bytes| && Within(bytes, pos + 1 + b, limit)
  {
    var b, root: nat := bytes[pos], 0;
    if b == 0 {
      assert NameAt(bytes, pos, root);
    } else if IsPointer(b) && Target(bytes, pos).Ok? {
      var target := Target(bytes, pos).value;
      if k: nat :| k <= limit - 1 && NameAt(bytes, target, k) {
        assert NameAt(bytes, pos, k + 1);
      }
      if k: nat :| k <= limit && NameAt(bytes, pos, k) {
        assert NameAt(bytes, target, k - 1);
      }
    } else if b <= 63 && pos + 1 + b <= |bytes| {
      var next := pos + 1 + b;
      if k: nat :| k <= limit && NameAt(bytes, next, k) {
        assert NameAt(bytes, pos, k);
      }
      if k: nat :| k <= limit && NameAt(bytes, pos, k) {
        assert NameAt(bytes, next, k);
      }
    }
  }

  // ----- read_name -----

  /** A decoded name: its labels, and the position just past it. */
  datatype Name = Name(labels: seq<Bytes>, end: nat)

  function Left(bytes: Bytes, pos: nat): nat {
    if pos <= |bytes| then |bytes| - pos else 0
  }

  /** The walk of `read_name` from `pos` after `hops` pointers. */
  function Walk(bytes: Bytes, pos: nat, hops: nat): (r: Result<Name, NameError>)
    requires hops <= MAX_HOPS + 1
    decreases MAX_HOPS + 1 - hops, Left(bytes, pos)
  {
    if hops > MAX_HOPS then Err(TooManyHops)
    else if pos >= |bytes| then Err(Overrun)
    else
      var b := bytes[pos];
      if b == 0 then Ok(Name([], pos + 1))
      else if IsPointer(b) then
        match Target(bytes, pos)
        case Err(e) => Err(e)
        case Ok(target) =>
          match Walk(bytes, target, hops + 1)
          case Err(e) => Err(e)
          case Ok(n) => Ok(Name(n.labels, pos + 2))
      else if b > 63 then Err(BadLabel)
      else if pos + 1 + b > |bytes| then Err(Overrun)
      else Prefixed([bytes[pos + 1..pos + 1 + b]], None, Walk(bytes, pos + 1 + b, hops))
  }

  /** The labels read so far, followed by the rest; `end` is set once a pointer was followed. */
  function Prefixed(labels: seq<Bytes>, end: Option<nat>, rest: Result<Name, NameError>): Result<Name, NameError> {
    match rest
    case Err(e) => Err(e)
    case Ok(n) => Ok(Name(labels + n.labels, if end.Some? then end.value else n.end))
  }

  lemma PrefixedNothing(rest: Result<Name, NameError>)
    ensures Prefixed([], None, rest) == rest
  {
    if rest.Ok? {
      assert [] + rest.value.labels == rest.value.labels;
    }
  }

  lemma PrefixedTwice(labels: seq<Bytes>, own: Bytes, end: Option<nat>, rest: Result<Name, NameError>)
    ensures Prefixed(labels, end, Prefixed([own], None, rest)) == Prefixed(labels + [own], end, rest)
  {
    if rest.Ok? {
      assert labels + ([own] + rest.value.labels) == labels + [own] + rest.value.labels;
    }
  }

  /** The dotted text of a name; the root is a single dot. */
  function Dotted(labels: seq<Bytes>): Bytes {
    if labels == [] then [DOT] else Join(labels, DOT)
  }

  /** Decodes the name at `start`; every index it reads is inside the message. */
  method ReadName(bytes: Bytes, start: nat) returns (r: Result<(Bytes, nat), NameError>)
    ensures r.Ok? <==> Walk(bytes, start, 0).Ok?
    ensures r.Ok? ==> var n := Walk(bytes, start, 0).value; r.value == (Dotted(n.labels), n.end)
    ensures r.Err? ==> Walk(bytes, start, 0) == Err(r.error)
  {
    var labels: seq<Bytes> := [];
    var pos: nat, hops: nat := start, 0;
    var end: Option<nat> := None;
    PrefixedNothing(Walk(bytes, start, 0));
    while true
      invariant hops <= MAX_HOPS + 1
      invariant Walk(bytes, start, 0) == Prefixed(labels, end, Walk(bytes, pos, hops))
      decreases MAX_HOPS + 1 - hops, Left(bytes, pos)
    {
      if hops > MAX_HOPS {
        return Err(TooManyHops);
      }
      if pos >= |bytes| {
        return Err(Overrun);
      }
      var b := bytes[pos];
      if b == 0 {
        if end.None? {
          end := Some(pos + 1);
        }
        assert labels + [] == labels;
        break;
      }
      if IsPointer(b) {
        var t := Target(bytes, pos);
        if t.Err? {
          return Err(t.error);
        }
        if end.None? {
          end := Some(pos + 2);
        }
        pos := t.value;
        hops := hops + 1;
        continue;
      }
      if b > 63 {
        return Err(BadLabel);
      }
      if pos + 1 + b > |bytes| {
        return Err(Overrun);
      }
      var own := bytes[pos + 1..pos + 1 + b];
      pos := pos + 1 + b;
      PrefixedTwice(labels, own, end, Walk(bytes, pos, hops));
      labels := labels + [own];
    }
    r := Ok((Dotted(labels), end.value));
  }

  /** What `read_name` accepts: exactly the names of at most eight pointers, ending where they end. */
  lemma {:induction false} WalkAccepts(bytes: Bytes, pos: nat, hops: nat)
    requires hops <= MAX_HOPS + 1
    ensures Walk(bytes, pos, hops).Ok? <==> Within(bytes, pos, MAX_HOPS - hops)
    ensures Walk(bytes, pos, hops).Ok? ==> Walk(bytes, pos, hops).value.end == EndOf(bytes, pos)
    decreases MAX_HOPS + 1 - hops, Left(bytes, pos)
  {
    if hops <= MAX_HOPS && pos < |bytes| {
      hide Within;
      WithinSteps(bytes, pos, MAX_HOPS - hops);
      var b := bytes[pos];
      if IsPointer(b) {
        if Target(bytes, pos).Ok? {
          WalkAccepts(bytes, Target(bytes, pos).value, hops + 1);
        }
      } else if b > 0 && pos + 1 + b <= |bytes| {
        WalkAccepts(bytes, pos + 1 + b, hops);
      }
    }
  }

  function WireLength(labels: seq<Bytes>): nat {
    if labels == [] then 0 else 1 + |labels[0]| + WireLength(labels[1..])
  }

  /** The bytes the pointers still allowed can lead to. */
  function Room(n: nat, hops: nat): nat
    decreases MAX_HOPS - hops
  {
    if hops >= MAX_HOPS then 0 else n + Room(n, hops + 1)
  }

  lemma {:induction false} RoomIsProduct(n: nat, hops: nat)
    requires hops <= MAX_HOPS
    ensures Room(n, hops) == (MAX_HOPS - hops) * n
    decreases MAX_HOPS - hops
  {
    if hops < MAX_HOPS {
      RoomIsProduct(n, hops + 1);
    }
  }

  /** Bounds of a decoded name: the end is inside the message, labels have 1 to 63 bytes, and each of
      the at most nine runs of labels fits in the message. */
  lemma {:induction false} WalkBounds(bytes: Bytes, pos: nat, hops: nat)
    requires hops <= MAX_HOPS + 1 && Walk(bytes, pos, hops).Ok?
    ensures var n := Walk(bytes, pos, hops).value;
      && pos < n.end <= |bytes|
      && (forall l :: l in n.labels ==> 1 <= |l| <= 63)
      && WireLength(n.labels) <= Left(bytes, pos) + Room(|bytes|, hops)
    decreases MAX_HOPS + 1 - hops, Left(bytes, pos)
  {
    var b := bytes[pos];
    if IsPointer(b) {
      WalkBounds(bytes, Target(bytes, pos).value, hops + 1);
    } else if b > 0 {
      var rest := Walk(bytes, pos + 1 + b, hops).value;
      WalkBounds(bytes, pos + 1 + b, hops);
      assert ([bytes[pos + 1..pos + 1 + b]] + rest.labels)[1..] == rest.labels;
    }
  }

  lemma {:induction false} DottedLength(labels: seq<Bytes>)
    ensures labels != [] ==> |Join(labels, DOT)| == WireLength(labels) - 1
  {
    if |labels| > 1 {
      DottedLength(labels[1..]);
    }
  }

  /** The labels of a well-formed name, pointers followed. */
  ghost function Spelled(bytes: Bytes, pos: nat, k: nat): seq<Bytes>
    requires NameAt(bytes, pos, k)
    decreases k, |bytes| - pos
  {
    var b := bytes[pos];
    if b == 0 then []
    else if IsPointer(b) then Spelled(bytes, Target(bytes, pos).value, k - 1)
    else [bytes[pos + 1..pos + 1 + b]] + Spelled(bytes, pos + 1 + b, k)
  }

  /** What `read_name` returns is what the name spells. */
  lemma {:induction false} WalkSpells(bytes: Bytes, pos: nat, hops: nat, k: nat)
    requires hops <= MAX_HOPS && k <= MAX_HOPS - hops && NameAt(bytes, pos, k)
    ensures Walk(bytes, pos, hops).Ok? && Walk(bytes, pos, hops).value.labels == Spelled(bytes, pos, k)
    decreases k, |bytes| - pos
  {
    var b := bytes[pos];
    if b != 0 {
      if IsPointer(b) {
        WalkSpells(bytes, Target(bytes, pos).value, hops + 1, k - 1);
      } else {
        WalkSpells(bytes, pos + 1 + b, hops, k);
      }
    }
  }

  /** The name `read_name` returns is at most nine times as long as the message. */
  lemma ReadNameBounds(bytes: Bytes, start: nat)
    requires Walk(bytes, start, 0).Ok?
    ensures var n := Walk(bytes, start, 0).value;
      && start < n.end <= |bytes|
      && (forall l :: l in n.labels ==> 1 <= |l| <= 63)
      && |Dotted(n.labels)| <= 9 * |bytes|
      && Within(bytes, start, MAX_HOPS)
  {
    WalkBounds(bytes, start, 0);
    RoomIsProduct(|bytes|, 0);
    DottedLength(Walk(bytes, start, 0).value.labels);
    WalkAccepts(bytes, start, 0);
  }

  // ----- skip_name and validate_name -----

  /** The verdict of `validate_name`: `None` is acceptance. */
  function Validation(bytes: Bytes, pos: nat, depth: nat): Option<NameError>
    requires depth <= MAX_HOPS + 1
    decreases MAX_HOPS + 1 - depth, Left(bytes, pos)
  {
    if depth > MAX_HOPS then Some(TooManyHops)
    else if pos >= |bytes| then Some(Overrun)
    else
      var b := bytes[pos];
      if b == 0 then None
      else if IsPointer(b) then
        match Target(bytes, pos)
        case Err(e) => Some(e)
        case Ok(target) => Validation(bytes, target, depth + 1)
      else if b > 63 then Some(BadLabel)
      else Validation(bytes, pos + 1 + b, depth)
  }

  method ValidateName(bytes: Bytes, start: nat, depth: nat) returns (r: Option<NameError>)
    requires depth <= MAX_HOPS + 1
    ensures r == Validation(bytes, start, depth)
    decreases MAX_HOPS + 1 - depth
  {
    if depth > MAX_HOPS {
      return Some(TooManyHops);
    }
    var pos: nat := start;
    while true
      invariant Validation(bytes, start, depth) == Validation(bytes, pos, depth)
      decreases Left(bytes, pos)
    {
      if pos >= |bytes| {
        return Some(Overrun);
      }
      var b := bytes[pos];
      if b == 0 {
        return None;
      }
      if IsPointer(b) {
        var t := Target(bytes, pos);
        if t.Err? {
          return Some(t.error);
        }
        r := ValidateName(bytes, t.value, depth + 1);
        return;
      }
      if b > 63 {
        return Some(BadLabel);
      }
      pos := pos + 1 + b;
      if pos > |bytes| {
        return Some(Overrun);
      }
    }
  }

  function Skip(bytes: Bytes, pos: nat): Result<nat, NameError>
    decreases Left(bytes, pos)
  {
    if pos >= |bytes| then Err(Overrun)
    else
      var b := bytes[pos];
      if b == 0 then Ok(pos + 1)
      else if IsPointer(b) then
        match Target(bytes, pos)
        case Err(e) => Err(e)
        case Ok(target) =>
          match Validation(bytes, target, 0)
          case Some(e) => Err(e)
          case None => Ok(pos + 2)
      else if b > 63 then Err(BadLabel)
      else Skip(bytes, pos + 1 + b)
  }

  method SkipName(bytes: Bytes, start: nat) returns (r: Result<nat, NameError>)
    ensures r == Skip(bytes, start)
  {
    var pos: nat := start;
    while true
      invariant Skip(bytes, start) == Skip(bytes, pos)
      decreases Left(bytes, pos)
    {
      if pos >= |bytes| {
        return Err(Overrun);
      }
      var b := bytes[pos];
      if b == 0 {
        return Ok(pos + 1);
      }
      if IsPointer(b) {
        var t := Target(bytes, pos);
        if t.Err? {
          return Err(t.error);
        }
        var v := ValidateName(bytes, t.value, 0);
        if v.Some? {
          return Err(v.value);
        }
        return Ok(pos + 2);
      }
      if b > 63 {
        return Err(BadLabel);
      }
      pos := pos + 1 + b;
      if pos > |bytes| {
        return Err(Overrun);
      }
    }
  }

  lemma {:induction false} ValidationAccepts(bytes: Bytes, pos: nat, depth: nat)
    requires depth <= MAX_HOPS + 1
    ensures Validation(bytes, pos, depth).None? <==> Within(bytes, pos, MAX_HOPS - depth)
    decreases MAX_HOPS + 1 - depth, Left(bytes, pos)
  {
    if depth <= MAX_HOPS && pos < |bytes| {
      hide Within;
      WithinSteps(bytes, pos, MAX_HOPS - depth);
      var b := bytes[pos];
      if IsPointer(b) {
        if Target(bytes, pos).Ok? {
          ValidationAccepts(bytes, Target(bytes, pos).value, depth + 1);
        }
      } else if b > 0 {
        ValidationAccepts(bytes, pos + 1 + b, depth);
      }
    }
  }

  /** What `skip_name` accepts: exactly the names of at most nine pointers, ending where they end. */
  lemma {:induction false} SkipAccepts(bytes: Bytes, pos: nat)
    ensures Skip(bytes, pos).Ok? <==> Within(bytes, pos, MAX_HOPS + 1)
    ensures Skip(bytes, pos).Ok? ==> Skip(bytes, pos).value == EndOf(bytes, pos)
    decreases Left(bytes, pos)
  {
    if pos < |bytes| {
      hide Within;
      WithinSteps(bytes, pos, MAX_HOPS + 1);
      var b := bytes[pos];
      if IsPointer(b) {
        if Target(bytes, pos).Ok? {
          ValidationAccepts(bytes, Target(bytes, pos).value, 0);
        }
      } else if b > 0 {
        SkipAccepts(bytes, pos + 1 + b);
      }
    }
  }

  /** The walkers agree, up to one pointer: whatever `read_name` decodes `skip_name` steps over, to the
      same position; and `skip_name` steps over a name `read_name` refuses exactly when resolving it
      takes nine pointers. */
  lemma WalkersAgree(bytes: Bytes, start: nat)
    ensures Walk(bytes, start, 0).Ok? ==> Skip(bytes, start) == Ok(Walk(bytes, start, 0).value.end)
    ensures Skip(bytes, start).Ok? && Walk(bytes, start, 0).Err? <==> NameAt(bytes, start, MAX_HOPS + 1)
  {
    WalkAccepts(bytes, start, 0);
    SkipAccepts(bytes, start);
    var nine: nat := MAX_HOPS + 1;
    if NameAt(bytes, start, nine) && Within(bytes, start, MAX_HOPS) {
      var k: nat :| k <= MAX_HOPS && NameAt(bytes, start, k);
      PointersUnique(bytes, start, k, nine);
    }
  }

  /** Nine pointers in a row, each to the next, and the root label. */
  function NinePointers(): (r: Bytes)
    ensures |r| == 19
  {
    seq(19, j requires 0 <= j < 19 => if j == 18 then 0 else if j % 2 == 0 then 192 else j + 1)
  }

  lemma {:induction false} ChainFrom(i: nat)
    requires i <= 9
    ensures NameAt(NinePointers(), 2 * i, 9 - i)
    decreases 9 - i
  {
    if i < 9 {
      ChainFrom(i + 1);
      assert Target(NinePointers(), 2 * i) == Ok(2 * i + 2);
    }
  }

  /** A message on which the walkers differ. */
  lemma WalkersDiffer()
    ensures Skip(NinePointers(), 0) == Ok(2)
    ensures Walk(NinePointers(), 0, 0).Err?
  {
    ChainFrom(0);
    var start: nat := 0;
    assert NameAt(NinePointers(), start, MAX_HOPS + 1);
    WalkersAgree(NinePointers(), start);
    SkipAccepts(NinePointers(), start);
  }
}

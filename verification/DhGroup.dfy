/**
 * Choosing a Diffie-Hellman group from the moduli file (dh-gex.c; section 3 of
 * RFC 4419): which modulus size is kept, how many candidates have it, and which of
 * them the reservoir retains.
 */
module DhGroup {
  import opened Octets

  const SAFE_PRIME: nat := 2
  const PRIM_TEST_REQUIRED: nat := 4
  const DH_PMIN: nat := 2048
  const DH_PMAX: nat := 8192

  /** A line of the moduli file, as fscanf leaves it. Comments and malformed lines count as `Skipped`. */
  datatype Line =
    | Skipped
    | Entry(kind: nat, tests: nat, size: nat, generator: string, modulus: string)

  /** What the random generator would return if asked at a line; None when it fails. */
  type Nonce = Option<nat>

  datatype Request = Request(pmin: nat, pn: nat, pmax: nat)

  function BetterSize(q: Request, current: nat, proposed: nat): bool {
    if current == proposed then false
    else if current == q.pn then false
    else if current == 0 && proposed >= q.pmin && proposed <= q.pmax then true
    else if proposed < q.pmin || proposed > q.pmax then false
    else if current == 0 then false
    else if proposed >= q.pn && proposed < current then true
    else if proposed <= q.pn && proposed > current then true
    else if proposed >= q.pn && current < q.pn then true
    else false
  }

  predicate InvnChance(n: nat, nonce: Nonce)
    requires n > 0
  {
    nonce.Some? && nonce.value % n == 0
  }

  predicate SafePrime(line: Line) {
    line.Entry? && line.kind == SAFE_PRIME && (line.tests / PRIM_TEST_REQUIRED) % 2 == 1
  }

  /** size + 1 in a size_t. */
  function ProposedSize(line: Line): nat
    requires line.Entry?
  {
    Wrap64(line.size + 1)
  }

  /** The variables of the selection loop; `kept` is the line whose modulus is held. */
  datatype Best = Best(size: nat, lines: nat, kept: Option<Line>)

  function Start(): Best {
    Best(0, 0, None)
  }

  function Consider(q: Request, best: Best, line: Line, nonce: Nonce): Best {
    if !SafePrime(line) then best
    else
      var proposed := ProposedSize(line);
      var sized :=
        if proposed != best.size && BetterSize(q, best.size, proposed) then best.(size := proposed, lines := 1)
        else if proposed == best.size then best.(lines := best.lines + 1)
        else best;
      if proposed == sized.size && InvnChance(sized.lines, nonce) then sized.(kept := Some(line)) else sized
  }

  /** The loop over a file, one nonce per line. */
  function Select(q: Request, file: seq<Line>, nonces: seq<Nonce>): Best
    requires |nonces| == |file|
  {
    if file == [] then Start()
    else
      var k := |file| - 1;
      Consider(q, Select(q, file[..k], nonces[..k]), file[k], nonces[k])
  }

  /** ssh_retrieve_dhgroup_file, on the parsed lines. */
  method RetrieveGroup(q: Request, file: seq<Line>, nonces: seq<Nonce>)
    returns (bestSize: nat, bestLines: nat, kept: Option<Line>)
    requires |nonces| == |file|
    ensures Best(bestSize, bestLines, kept) == Select(q, file, nonces)
  {
    bestSize, bestLines, kept := 0, 0, None;
    for i := 0 to |file|
      invariant Best(bestSize, bestLines, kept) == Select(q, file[..i], nonces[..i])
    {
      assert file[..i + 1][..i] == file[..i] && nonces[..i + 1][..i] == nonces[..i];
      if SafePrime(file[i]) {
        var proposed := ProposedSize(file[i]);
        if proposed != bestSize && BetterSize(q, bestSize, proposed) {
          bestLines := 1;
          bestSize := proposed;
        } else if proposed == bestSize {
          bestLines := bestLines + 1;
        }
        if proposed == bestSize && InvnChance(bestLines, nonces[i]) {
          kept := Some(file[i]);
        }
      }
    }
    assert file[..|file|] == file && nonces[..|file|] == nonces;
  }

  /** A line counts if it is a safe prime, type 2, whose tests have the bit 4 set; the size in the file is one short. */
  lemma EligibleExactly(q: Request, line: Line)
    requires q.pmax < TWO_32
    ensures
      line.Entry? && line.size < 0xffff_ffff_ffff_ffff ==>
        (Eligible(q, line)
         <==> line.kind == 2 && line.tests % 8 >= 4 && q.pmin <= line.size + 1 <= q.pmax)
        && ProposedSize(line) == line.size + 1
    ensures line.Skipped? ==> !Eligible(q, line)
    ensures line.Entry? && line.size == 0xffff_ffff_ffff_ffff ==> !Eligible(q, line)
  {
  }

  // ---- Which size is best ----

  predicate Eligible(q: Request, line: Line) {
    SafePrime(line) && ProposedSize(line) >= 1 && q.pmin <= ProposedSize(line) <= q.pmax
  }

  /** `s` serves the request at least as well as `t`: the smallest size from pn up, else the largest below it. */
  predicate AsGood(q: Request, s: nat, t: nat) {
    if s >= q.pn then t < q.pn || s <= t else t <= s
  }

  ghost predicate Ideal(q: Request, file: seq<Line>, s: nat) {
    if s == 0 then
      forall line :: line in file ==> !Eligible(q, line)
    else
      && (exists line :: line in file && Eligible(q, line) && ProposedSize(line) == s)
      && (forall line :: line in file && Eligible(q, line) ==> AsGood(q, s, ProposedSize(line)))
  }

  /** The eligible lines of one size, in file order. */
  function Candidates(q: Request, file: seq<Line>, s: nat): seq<Line> {
    if file == [] then []
    else
      var k := |file| - 1;
      Candidates(q, file[..k], s)
      + if Eligible(q, file[k]) && ProposedSize(file[k]) == s then [file[k]] else []
  }

  /** The nonces available at those lines. */
  function CandidateNonces(q: Request, file: seq<Line>, nonces: seq<Nonce>, s: nat): (r: seq<Nonce>)
    requires |nonces| == |file|
    ensures |r| == |Candidates(q, file, s)|
  {
    if file == [] then []
    else
      var k := |file| - 1;
      CandidateNonces(q, file[..k], nonces[..k], s)
      + if Eligible(q, file[k]) && ProposedSize(file[k]) == s then [nonces[k]] else []
  }

  /** The reservoir: the last candidate whose draw was won, counting draws from one. */
  function Retained(nonces: seq<Nonce>): (r: Option<nat>)
    ensures r.Some? ==> r.value < |nonces|
  {
    if nonces == [] then None
    else
      var k := |nonces| - 1;
      if InvnChance(k + 1, nonces[k]) then Some(k) else Retained(nonces[..k])
  }

  ghost predicate Ordered(q: Request) {
    q.pmin <= q.pn <= q.pmax < TWO_32
  }

  lemma {:induction false} NoneYet(q: Request, file: seq<Line>, s: nat)
    requires forall line :: line in file && Eligible(q, line) ==> ProposedSize(line) != s
    ensures Candidates(q, file, s) == []
  {
    if file != [] {
      assert file[|file| - 1] in file;
      NoneYet(q, file[..|file| - 1], s);
    }
  }

  /** The size and count the loop has after any file. */
  ghost predicate SizeDescribed(q: Request, file: seq<Line>, b: Best) {
    && Ideal(q, file, b.size)
    && (b.size != 0 ==> q.pmin <= b.size <= q.pmax && b.lines == |Candidates(q, file, b.size)| > 0)
  }

  /** The line whose modulus the loop holds after any file. */
  ghost predicate KeptDescribed(q: Request, file: seq<Line>, nonces: seq<Nonce>, b: Best)
    requires |nonces| == |file|
  {
    var c := Candidates(q, file, b.size);
    var r := Retained(CandidateNonces(q, file, nonces, b.size));
    && (b.kept.Some? ==> b.kept.value in file && SafePrime(b.kept.value))
    && (b.size == 0 && b.kept.Some? ==> ProposedSize(b.kept.value) == 0)
    && (b.size != 0 && r.Some? ==> b.kept == Some(c[r.value]))
    && (b.size != 0 && r.None? && b.kept.Some? ==> ProposedSize(b.kept.value) != b.size)
  }

  lemma BetterIsPreferred(q: Request, current: nat, proposed: nat)
    requires Ordered(q) && q.pn >= 1
    requires current == 0 || q.pmin <= current <= q.pmax
    ensures BetterSize(q, current, proposed) <==>
              proposed != 0 && q.pmin <= proposed <= q.pmax && (current == 0 || !AsGood(q, current, proposed))
  {
  }

  lemma OneMore(q: Request, file: seq<Line>, nonces: seq<Nonce>, line: Line, nonce: Nonce, s: nat)
    requires |nonces| == |file|
    ensures
      var counts := Eligible(q, line) && ProposedSize(line) == s;
      && Candidates(q, file + [line], s) == Candidates(q, file, s) + (if counts then [line] else [])
      && CandidateNonces(q, file + [line], nonces + [nonce], s)
         == CandidateNonces(q, file, nonces, s) + (if counts then [nonce] else [])
  {
    assert (file + [line])[..|file|] == file && (nonces + [nonce])[..|file|] == nonces;
  }

  lemma OneMoreDraw(nonces: seq<Nonce>, nonce: Nonce)
    ensures Retained(nonces + [nonce]) == if InvnChance(|nonces| + 1, nonce) then Some(|nonces|) else Retained(nonces)
  {
    assert (nonces + [nonce])[..|nonces|] == nonces;
  }

  lemma InEither(file: seq<Line>, line: Line)
    ensures forall x :: x in file + [line] <==> x in file || x == line
  {
  }

  lemma ConsiderSize(q: Request, file: seq<Line>, b: Best, line: Line, nonce: Nonce)
    requires Ordered(q) && q.pn >= 1 && SizeDescribed(q, file, b)
    ensures SizeDescribed(q, file + [line], Consider(q, b, line, nonce))
  {
    var b' := Consider(q, b, line, nonce);
    var filler := seq(|file|, i => None);
    InEither(file, line);
    OneMore(q, file, filler, line, nonce, b'.size);
    if SafePrime(line) {
      BetterIsPreferred(q, b.size, ProposedSize(line));
      if b'.size != b.size {
        NoneYet(q, file, b'.size);
      }
    }
    if b.size != 0 {
      assert exists x :: x in file + [line] && Eligible(q, x) && ProposedSize(x) == b.size;
    }
    if b'.size != b.size {
      assert line in file + [line];
    }
  }

  /** A line that does not have the best size leaves the reservoir alone. */
  lemma KeptUnchanged(q: Request, file: seq<Line>, nonces: seq<Nonce>, b: Best, line: Line, nonce: Nonce)
    requires |nonces| == |file| && KeptDescribed(q, file, nonces, b)
    requires !(Eligible(q, line) && ProposedSize(line) == b.size)
    ensures KeptDescribed(q, file + [line], nonces + [nonce], b)
  {
    InEither(file, line);
    OneMore(q, file, nonces, line, nonce, b.size);
    assert Candidates(q, file + [line], b.size) == Candidates(q, file, b.size);
    assert CandidateNonces(q, file + [line], nonces + [nonce], b.size) == CandidateNonces(q, file, nonces, b.size);
  }

  /** A further candidate of the best size takes its draw. */
  lemma KeptDrawn(q: Request, file: seq<Line>, nonces: seq<Nonce>, b: Best, line: Line, nonce: Nonce)
    requires |nonces| == |file| && SizeDescribed(q, file, b) && KeptDescribed(q, file, nonces, b)
    requires Eligible(q, line) && ProposedSize(line) == b.size
    ensures KeptDescribed(q, file + [line], nonces + [nonce], Consider(q, b, line, nonce))
  {
    var c, d := Candidates(q, file, b.size), CandidateNonces(q, file, nonces, b.size);
    InEither(file, line);
    OneMore(q, file, nonces, line, nonce, b.size);
    OneMoreDraw(d, nonce);
    var b' := Consider(q, b, line, nonce);
    assert b'.size == b.size && b'.kept == if InvnChance(|d| + 1, nonce) then Some(line) else b.kept;
    assert Candidates(q, file + [line], b.size) == c + [line];
    assert CandidateNonces(q, file + [line], nonces + [nonce], b.size) == d + [nonce];
  }

  /** The first candidate of a better size takes the first draw; what was kept before has another size. */
  lemma {:induction false} KeptAnew(q: Request, file: seq<Line>, nonces: seq<Nonce>, b: Best, line: Line, nonce: Nonce)
    requires |nonces| == |file| && KeptDescribed(q, file, nonces, b)
    requires Eligible(q, line) && Candidates(q, file, ProposedSize(line)) == []
    ensures Candidates(q, file + [line], ProposedSize(line)) == [line]
    ensures Retained(CandidateNonces(q, file + [line], nonces + [nonce], ProposedSize(line)))
            == if InvnChance(1, nonce) then Some(0) else None
    ensures b.kept.Some? ==> ProposedSize(b.kept.value) != ProposedSize(line)
  {
    var s := ProposedSize(line);
    OneMore(q, file, nonces, line, nonce, s);
    OneMoreDraw([], nonce);
    NotKeptYet(q, file, nonces, b, s);
    assert CandidateNonces(q, file, nonces, s) == [];
    assert CandidateNonces(q, file + [line], nonces + [nonce], s) == [] + [nonce];
  }

  lemma ConsiderKept(q: Request, file: seq<Line>, nonces: seq<Nonce>, b: Best, line: Line, nonce: Nonce)
    requires Ordered(q) && q.pn >= 1 && |nonces| == |file|
    requires SizeDescribed(q, file, b) && KeptDescribed(q, file, nonces, b)
    ensures KeptDescribed(q, file + [line], nonces + [nonce], Consider(q, b, line, nonce))
  {
    if !SafePrime(line) {
      KeptUnchanged(q, file, nonces, b, line, nonce);
    } else {
      var s := ProposedSize(line);
      BetterIsPreferred(q, b.size, s);
      if BetterSize(q, b.size, s) {
        NoneYet(q, file, s);
        KeptAnew(q, file, nonces, b, line, nonce);
        InEither(file, line);
      } else if s != b.size {
        KeptUnchanged(q, file, nonces, b, line, nonce);
      } else if s == 0 {
        KeptZero(q, file, nonces, b, line, nonce);
      } else {
        KeptDrawn(q, file, nonces, b, line, nonce);
      }
    }
  }

  /** A size that wrapped around to 0 may be held until a real size is found. */
  lemma KeptZero(q: Request, file: seq<Line>, nonces: seq<Nonce>, b: Best, line: Line, nonce: Nonce)
    requires |nonces| == |file| && KeptDescribed(q, file, nonces, b)
    requires SafePrime(line) && ProposedSize(line) == 0 && b.size == 0
    ensures KeptDescribed(q, file + [line], nonces + [nonce], Consider(q, b, line, nonce))
  {
    InEither(file, line);
  }

  /** A modulus held before its size became best has another size. */
  lemma NotKeptYet(q: Request, file: seq<Line>, nonces: seq<Nonce>, b: Best, s: nat)
    requires |nonces| == |file| && KeptDescribed(q, file, nonces, b) && q.pmin <= s <= q.pmax && s >= 1
    requires Candidates(q, file, s) == []
    ensures b.kept.Some? ==> ProposedSize(b.kept.value) != s
  {
    if b.kept.Some? && ProposedSize(b.kept.value) == s {
      CandidateFound(q, file, b.kept.value, s);
    }
  }

  lemma {:induction false} CandidateFound(q: Request, file: seq<Line>, line: Line, s: nat)
    requires line in file && Eligible(q, line) && ProposedSize(line) == s
    ensures line in Candidates(q, file, s)
  {
    var k := |file| - 1;
    if line != file[k] {
      assert line in file[..k];
      CandidateFound(q, file[..k], line, s);
    }
  }

  lemma {:induction false} SelectDescribed(q: Request, file: seq<Line>, nonces: seq<Nonce>)
    requires Ordered(q) && q.pn >= 1 && |nonces| == |file|
    ensures SizeDescribed(q, file, Select(q, file, nonces))
    ensures KeptDescribed(q, file, nonces, Select(q, file, nonces))
  {
    if file != [] {
      var k := |file| - 1;
      var b := Select(q, file[..k], nonces[..k]);
      SelectDescribed(q, file[..k], nonces[..k]);
      ConsiderSize(q, file[..k], b, file[k], nonces[k]);
      ConsiderKept(q, file[..k], nonces[..k], b, file[k], nonces[k]);
      assert file[..k] + [file[k]] == file && nonces[..k] + [nonces[k]] == nonces;
    }
  }

  // ---- Main results ----

  /**
   * For an ordered request the loop finds the ideal size and counts its candidates,
   * if and only if the preferred size is not 0 (or nothing is eligible anyway).
   */
  lemma SelectsIdealSize(q: Request, file: seq<Line>, nonces: seq<Nonce>)
    requires Ordered(q) && |nonces| == |file|
    ensures Ideal(q, file, Select(q, file, nonces).size) <==> (q.pn >= 1 || Ideal(q, file, 0))
    ensures q.pn >= 1 && Select(q, file, nonces).size != 0 ==>
              Select(q, file, nonces).lines == |Candidates(q, file, Select(q, file, nonces).size)|
  {
    if q.pn >= 1 {
      SelectDescribed(q, file, nonces);
    } else {
      NothingForZero(q, file, nonces);
    }
  }

  lemma {:induction false} NothingForZero(q: Request, file: seq<Line>, nonces: seq<Nonce>)
    requires q.pn == 0 && |nonces| == |file|
    ensures Select(q, file, nonces).size == 0
  {
    if file != [] {
      NothingForZero(q, file[..|file| - 1], nonces[..|file| - 1]);
    }
  }

  /** There is only one ideal size. */
  lemma IdealIsUnique(q: Request, file: seq<Line>, s: nat, t: nat)
    requires Ideal(q, file, s) && Ideal(q, file, t)
    ensures s == t
  {
  }

  /**
   * The modulus kept is the retained candidate of the best size, if and only if the
   * random generator won some draw among those candidates; a generator that works
   * wins the first.
   */
  lemma {:induction false} KeepsRetained(q: Request, file: seq<Line>, nonces: seq<Nonce>)
    requires Ordered(q) && q.pn >= 1 && |nonces| == |file| && Select(q, file, nonces).size != 0
    ensures
      var b := Select(q, file, nonces);
      var c := Candidates(q, file, b.size);
      var d := CandidateNonces(q, file, nonces, b.size);
      && (b.kept.Some? && SafePrime(b.kept.value) && ProposedSize(b.kept.value) == b.size <==> Retained(d).Some?)
      && (Retained(d).Some? ==> b.kept == Some(c[Retained(d).value]))
      && ((forall n :: n in nonces ==> n.Some?) ==> Retained(d).Some?)
  {
    SelectDescribed(q, file, nonces);
    var b := Select(q, file, nonces);
    var c := Candidates(q, file, b.size);
    var d := CandidateNonces(q, file, nonces, b.size);
    if Retained(d).Some? {
      CandidatesHaveSize(q, file, b.size, Retained(d).value);
    }
    if forall n :: n in nonces ==> n.Some? {
      NoncesComeFrom(q, file, nonces, b.size);
      FirstDrawWins(d);
    }
  }

  lemma {:induction false} CandidatesHaveSize(q: Request, file: seq<Line>, s: nat, i: nat)
    requires i < |Candidates(q, file, s)|
    ensures var line := Candidates(q, file, s)[i]; Eligible(q, line) && ProposedSize(line) == s
  {
    var k := |file| - 1;
    if i < |Candidates(q, file[..k], s)| {
      CandidatesHaveSize(q, file[..k], s, i);
    }
  }

  lemma {:induction false} NoncesComeFrom(q: Request, file: seq<Line>, nonces: seq<Nonce>, s: nat)
    requires |nonces| == |file|
    ensures forall n :: n in CandidateNonces(q, file, nonces, s) ==> n in nonces
  {
    if file != [] {
      NoncesComeFrom(q, file[..|file| - 1], nonces[..|file| - 1], s);
    }
  }

  lemma {:induction false} FirstDrawWins(d: seq<Nonce>)
    requires d != [] && d[0].Some?
    ensures Retained(d).Some?
  {
    if |d| > 1 {
      FirstDrawWins(d[..|d| - 1]);
    }
  }

  /** A generator that fails at the wrong moment leaves a modulus that does not have the reported size. */
  lemma FailedDrawKeepsOldModulus()
    ensures
      var q := Request(2048, 2048, 8192);
      var file := [Entry(2, 4, 3071, "2", "A"), Entry(2, 4, 2047, "2", "B")];
      Select(q, file, [Some(0), None]) == Best(2048, 1, Some(file[0]))
  {
  }

  // ---- The order of the file does not matter ----

  lemma {:induction false} CandidatesAdd(q: Request, a: seq<Line>, b: seq<Line>, s: nat)
    ensures |Candidates(q, a + b, s)| == |Candidates(q, a, s)| + |Candidates(q, b, s)|
  {
    if b == [] {
      assert a + b == a;
    } else {
      var k := |b| - 1;
      assert (a + b)[..|a| + k] == a + b[..k];
      CandidatesAdd(q, a, b[..k], s);
    }
  }

  lemma {:induction false} CountIgnoresOrder(q: Request, a: seq<Line>, b: seq<Line>, s: nat)
    requires multiset(a) == multiset(b)
    ensures |Candidates(q, a, s)| == |Candidates(q, b, s)|
    decreases |a|
  {
    if a == [] {
      assert |b| == |multiset(b)| == 0;
    } else {
      var k := |a| - 1;
      assert a == a[..k] + [a[k]];
      assert a[k] in multiset(b);
      var i :| 0 <= i < |b| && b[i] == a[k];
      var rest := b[..i] + b[i + 1..];
      assert b == b[..i] + [a[k]] + b[i + 1..];
      assert multiset(rest) == multiset(b) - multiset{a[k]};
      assert multiset(a[..k]) == multiset(a) - multiset{a[k]};
      CountIgnoresOrder(q, a[..k], rest, s);
      CandidatesAdd(q, a[..k], [a[k]], s);
      CandidatesAdd(q, b[..i], [a[k]], s);
      CandidatesAdd(q, b[..i] + [a[k]], b[i + 1..], s);
      CandidatesAdd(q, b[..i], b[i + 1..], s);
    }
  }

  /** Neither the size found nor the number of its candidates depends on the order of the lines or on the draws. */
  lemma {:induction false} OrderDoesNotMatter(q: Request, a: seq<Line>, na: seq<Nonce>, b: seq<Line>, nb: seq<Nonce>)
    requires Ordered(q) && q.pn >= 1
    requires |na| == |a| && |nb| == |b| && multiset(a) == multiset(b)
    ensures Select(q, a, na).size == Select(q, b, nb).size
    ensures Select(q, a, na).size != 0 ==> Select(q, a, na).lines == Select(q, b, nb).lines
  {
    SelectDescribed(q, a, na);
    SelectDescribed(q, b, nb);
    var s := Select(q, a, na).size;
    assert forall line :: line in a <==> line in multiset(a);
    assert forall line :: line in b <==> line in multiset(b);
    assert Ideal(q, b, s);
    IdealIsUnique(q, b, s, Select(q, b, nb).size);
    CountIgnoresOrder(q, a, b, s);
  }

  // ---- The request of the client ----

  /**
   * The checks and the clamping of ssh_packet_server_dhgex_request: an ordered request
   * that overlaps the sizes served, with minimum and preference raised to the lowest.
   */
  function Accepted(pmin: nat, pn: nat, pmax: nat): (r: Option<Request>)
    ensures r.Some? <==> pmin <= pn <= pmax && pn <= DH_PMAX && DH_PMIN <= pmax
    ensures r.Some? ==> r.value == Request(Max(pmin, DH_PMIN), Max(pn, DH_PMIN), pmax)
  {
    if pmin > pn || pn > pmax || pn > DH_PMAX || pmax < DH_PMIN then None
    else if pmin < DH_PMIN then Some(Request(DH_PMIN, if pn < DH_PMIN then DH_PMIN else pn, pmax))
    else Some(Request(pmin, pn, pmax))
  }

  /**
   * Every request the server accepts is one the selection handles, and no modulus it
   * selects is below the minimum or outside what the client asked for.
   */
  lemma {:induction false} AcceptedIsServed(pmin: nat, pn: nat, pmax: nat, file: seq<Line>, nonces: seq<Nonce>)
    requires pmax < TWO_32 && |nonces| == |file| && Accepted(pmin, pn, pmax).Some?
    ensures
      var q := Accepted(pmin, pn, pmax).value;
      var b := Select(q, file, nonces);
      && Ordered(q) && q.pn >= 1
      && Ideal(q, file, b.size)
      && (b.size != 0 ==> DH_PMIN <= b.size && pmin <= b.size <= pmax)
  {
    var q := Accepted(pmin, pn, pmax).value;
    SelectDescribed(q, file, nonces);
  }
}

/** Files that are a sequence of self-delimiting records, for any kind of record. */
module Framing {

  type byte = b: int | 0 <= b < 256

  datatype Result<+T> = Ok(value: T) | Err(error: Error)

  datatype Error = UnknownRecordType(code: byte) | ReplayError

  datatype Parsed<+R> = End | Broken(error: Error) | Next(record: R, rest: seq<byte>)

  /** How one record is written, which records can be, and how the next one is read. */
  datatype Format<!R> = Format(write: R -> seq<byte>, writable: R -> bool, read: seq<byte> -> Parsed<R>)

  /** Reading a record uses up bytes. */
  ghost predicate Progresses<R(!new)>(f: Format<R>) {
    forall bs :: f.read(bs).Next? ==> |f.read(bs).rest| < |bs|
  }

  /** A written record reads back whatever follows it, and does not read at all if
      it is cut short; only the empty file ends. */
  ghost predicate SelfDelimiting<R(!new)>(f: Format<R>) {
    && Progresses(f) && f.read([]) == End
    && (forall r, tail :: f.writable(r) ==> f.read(f.write(r) + tail) == Next(r, tail))
    && (forall r, cut :: f.writable(r) && 0 < cut < |f.write(r)| ==> f.read(f.write(r)[..cut]).Broken?)
  }

  ghost predicate Writable<R>(f: Format<R>, rs: seq<R>) {
    forall k :: 0 <= k < |rs| ==> f.writable(rs[k])
  }

  ghost function WriteAll<R>(f: Format<R>, rs: seq<R>): seq<byte> {
    if rs == [] then [] else WriteAll(f, rs[..|rs| - 1]) + f.write(rs[|rs| - 1])
  }

  ghost function ReadAll<R(!new)>(f: Format<R>, bs: seq<byte>): Result<seq<R>>
    requires Progresses(f)
    decreases |bs|
  {
    match f.read(bs)
    case End => Ok([])
    case Broken(e) => Err(e)
    case Next(r, rest) =>
      assert f.read(bs).Next?;
      match ReadAll(f, rest)
      case Ok(rs) => Ok([r] + rs)
      case Err(e) => Err(e)
  }

  lemma WriteOneMore<R>(f: Format<R>, rs: seq<R>, r: R)
    ensures WriteAll(f, rs + [r]) == WriteAll(f, rs) + f.write(r)
  {
    assert (rs + [r])[..|rs|] == rs;
  }

  lemma {:induction false} WriteFromFront<R>(f: Format<R>, rs: seq<R>)
    requires rs != []
    ensures WriteAll(f, rs) == f.write(rs[0]) + WriteAll(f, rs[1..])
  {
    var n := |rs| - 1;
    if n == 0 {
      assert rs[..0] == [] && rs[1..] == [];
    } else {
      WriteFromFront(f, rs[..n]);
      assert rs[..n][1..] == rs[1..][..n - 1];
      assert rs[1..][n - 1] == rs[n];
    }
  }

  /** Any list of records comes back as it was written. */
  lemma {:induction false} RoundTrip<R(!new)>(f: Format<R>, rs: seq<R>)
    requires SelfDelimiting(f) && Writable(f, rs)
    ensures ReadAll(f, WriteAll(f, rs)) == Ok(rs)
  {
    if rs == [] {
    } else {
      WriteFromFront(f, rs);
      assert f.read(f.write(rs[0]) + WriteAll(f, rs[1..])) == Next(rs[0], WriteAll(f, rs[1..]));
      RoundTrip(f, rs[1..]);
      assert rs == [rs[0]] + rs[1..];
    }
  }

  /** The size of the file after the first `k` records. */
  ghost function Boundary<R>(f: Format<R>, rs: seq<R>, k: nat): nat
    requires k <= |rs|
  {
    |WriteAll(f, rs[..k])|
  }

  lemma Boundaries<R>(f: Format<R>, rs: seq<R>)
    ensures Boundary(f, rs, 0) == 0
    ensures forall k :: 0 < k <= |rs| ==> Boundary(f, rs, k) == |f.write(rs[0])| + Boundary(f, rs[1..], k - 1)
  {
    assert rs[..0] == [];
    forall k | 0 < k <= |rs| ensures Boundary(f, rs, k) == |f.write(rs[0])| + Boundary(f, rs[1..], k - 1) {
      WriteFromFront(f, rs[..k]);
      assert rs[..k][1..] == rs[1..][..k - 1];
    }
  }

  /** What a file cut at `cut` reads as: the first `k` records, or an error, and
      then there is no record boundary at the cut. */
  lemma {:induction false} ReadCut<R(!new)>(f: Format<R>, rs: seq<R>, cut: nat) returns (k: nat)
    requires SelfDelimiting(f) && Writable(f, rs) && cut <= |WriteAll(f, rs)|
    ensures var p := ReadAll(f, WriteAll(f, rs)[..cut]);
            && (p.Ok? ==> k <= |rs| && Boundary(f, rs, k) == cut && p == Ok(rs[..k]))
            && (p.Err? ==> forall j :: 0 <= j <= |rs| ==> Boundary(f, rs, j) != cut)
    decreases |rs|
  {
    k := 0;
    Boundaries(f, rs);
    if cut == 0 {
      assert WriteAll(f, rs)[..0] == [] && rs[..0] == [];
    } else {
      WriteFromFront(f, rs);
      var first, rest := f.write(rs[0]), WriteAll(f, rs[1..]);
      if cut < |first| {
        assert WriteAll(f, rs)[..cut] == first[..cut];
      } else {
        var tail := rest[..cut - |first|];
        assert WriteAll(f, rs)[..cut] == first + tail;
        assert f.read(first + tail) == Next(rs[0], tail);
        k := ReadCut(f, rs[1..], cut - |first|);
        if ReadAll(f, tail).Ok? {
          assert [rs[0]] + rs[1..][..k] == rs[..k + 1];
          k := k + 1;
        }
      }
    }
  }

  /** A file cut anywhere reads without error if and only if it was cut between
      two records, and then gives the records before the cut. */
  lemma CutReadsIffAtBoundary<R(!new)>(f: Format<R>, rs: seq<R>, cut: nat)
    requires SelfDelimiting(f) && Writable(f, rs) && cut <= |WriteAll(f, rs)|
    ensures ReadAll(f, WriteAll(f, rs)[..cut]).Ok? <==> exists k :: 0 <= k <= |rs| && Boundary(f, rs, k) == cut
    ensures ReadAll(f, WriteAll(f, rs)[..cut]).Ok? ==>
            exists k :: 0 <= k <= |rs| && Boundary(f, rs, k) == cut && ReadAll(f, WriteAll(f, rs)[..cut]) == Ok(rs[..k])
  {
    var k := ReadCut(f, rs, cut);
  }
}

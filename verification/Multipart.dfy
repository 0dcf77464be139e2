/** S3 multipart uploads: numbered parts that arrive in any order, any number of times, and a floor on all but the last. */
module Multipart {
  import opened Bytes
  import opened Sorting
  import opened ZipReader

  /** S3's minimum size of a part that is not the last one. */
  const PART_FLOOR: nat := 5 * 1024 * 1024

  datatype PartUpload = PartUpload(number: nat, bytes: Octets)

  /** The parts S3 holds after a series of uploads; sending a number again replaces that part. */
  function Received(log: seq<PartUpload>): map<nat, Octets> {
    if log == [] then map[] else Received(log[..|log| - 1])[log[|log| - 1].number := log[|log| - 1].bytes]
  }

  predicate MeetsFloor(parts: seq<Octets>) {
    forall i | 0 <= i < |parts| - 1 :: |parts[i]| >= PART_FLOOR
  }

  function Pick(held: map<nat, Octets>, numbers: seq<nat>): seq<Octets>
    requires forall n | n in numbers :: n in held
  {
    seq(|numbers|, i requires 0 <= i < |numbers| => held[numbers[i]])
  }

  predicate Ascending(numbers: seq<nat>) {
    forall i, j | 0 <= i < j < |numbers| :: numbers[i] < numbers[j]
  }

  /** Completing an upload: refused for missing, unordered or undersized parts, else their concatenation. */
  function Complete(held: map<nat, Octets>, numbers: seq<nat>): Option<Octets> {
    if numbers == [] || !Ascending(numbers) || (exists n | n in numbers :: n !in held) then None
    else if !MeetsFloor(Pick(held, numbers)) then None
    else Some(Flatten(Pick(held, numbers)))
  }

  /** The part numbers 1 to `n`. */
  function Numbers(n: nat): (s: seq<nat>)
    ensures |s| == n
  {
    seq(n, i requires 0 <= i < n => i + 1)
  }

  ghost predicate Sent(log: seq<PartUpload>, number: nat) {
    exists i :: 0 <= i < |log| && log[i].number == number
  }

  /** Every upload in the log carries the planned bytes of its number, and every number occurs. */
  ghost predicate Uploads(log: seq<PartUpload>, parts: seq<Octets>) {
    && (forall i | 0 <= i < |log| :: 1 <= log[i].number <= |parts| && log[i].bytes == parts[log[i].number - 1])
    && (forall n | n in Numbers(|parts|) :: Sent(log, n))
  }

  lemma {:induction false} ReceivedParts(log: seq<PartUpload>, parts: seq<Octets>)
    requires forall i | 0 <= i < |log| :: 1 <= log[i].number <= |parts| && log[i].bytes == parts[log[i].number - 1]
    ensures forall n :: n in Received(log) <==> Sent(log, n)
    ensures forall n | n in Received(log) :: 1 <= n <= |parts| && Received(log)[n] == parts[n - 1]
  {
    if log != [] {
      var last := |log| - 1;
      ReceivedParts(log[..last], parts);
      forall n ensures n in Received(log) <==> Sent(log, n) {
        if Sent(log[..last], n) {
          var i :| 0 <= i < last && log[..last][i].number == n;
          assert log[i].number == n;
        }
        if Sent(log, n) {
          var i :| 0 <= i < |log| && log[i].number == n;
          assert i < last ==> log[..last][i].number == n;
        }
      }
    }
  }

  /** Sorting the finished part numbers restores 1 to `n`, whatever order they finished in. */
  lemma FinishedInAnyOrder(finished: seq<nat>, n: nat)
    requires multiset(finished) == multiset(Numbers(n))
    ensures Sort(AtMost, finished) == Numbers(n)
  {
    SortSorts(AtMost, finished);
    AscendingIsUnique(Sort(AtMost, finished), Numbers(n));
  }

  ghost predicate Holds(held: map<nat, Octets>, parts: seq<Octets>, i: nat)
    requires i < |parts|
  {
    i + 1 in held && held[i + 1] == parts[i]
  }

  lemma CompletePlanned(held: map<nat, Octets>, parts: seq<Octets>)
    requires parts != []
    requires forall i | 0 <= i < |parts| :: Holds(held, parts, i)
    ensures Complete(held, Numbers(|parts|)) == if MeetsFloor(parts) then Some(Flatten(parts)) else None
  {
    var numbers := Numbers(|parts|);
    forall n | n in numbers ensures n in held {
      var k :| 0 <= k < |numbers| && numbers[k] == n;
      assert Holds(held, parts, k);
    }
    forall i | 0 <= i < |parts| ensures Pick(held, numbers)[i] == parts[i] {
      assert Holds(held, parts, i);
    }
    assert Pick(held, numbers) == parts;
  }

  lemma HeldAfter(log: seq<PartUpload>, parts: seq<Octets>, i: nat)
    requires Uploads(log, parts) && i < |parts|
    ensures Holds(Received(log), parts, i)
  {
    assert Numbers(|parts|)[i] == i + 1;
    assert Sent(log, i + 1);
    ReceivedParts(log, parts);
  }

  /**
   * Whatever order the parts finish in and however often one is retried, completing the upload with
   * the sorted part numbers yields the parts in plan order, and it is refused only for a part below
   * the floor.
   */
  lemma AnyOrderCompletes(log: seq<PartUpload>, parts: seq<Octets>, finished: seq<nat>)
    requires parts != [] && Uploads(log, parts)
    requires multiset(finished) == multiset(Numbers(|parts|))
    ensures Complete(Received(log), Sort(AtMost, finished))
         == if MeetsFloor(parts) then Some(Flatten(parts)) else None
  {
    FinishedInAnyOrder(finished, |parts|);
    forall i | 0 <= i < |parts| ensures Holds(Received(log), parts, i) {
      HeldAfter(log, parts, i);
    }
    CompletePlanned(Received(log), parts);
  }
}

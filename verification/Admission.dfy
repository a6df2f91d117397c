/** Worst-case admission accounting for shared acquisition
    (crates/jackstay/src/acquisition.rs). A reservation promises an incarnation a number
    of distinct resources and the bytes of its claim mapping until its cleanup is
    acknowledged. No configuration replacement is pending in this model. */
module Admission {
  import opened Modular

  type u32 = n: nat | n <= U32_MAX
  type u64 = n: nat | n <= U64_MAX

  datatype Limits = Limits(
    resourceCapacity: u32, retainedHistory: u32, producerReserve: u32,
    allocatedBytes: u64, fixedBytes: u64, memoryBudget: u64, maxIncarnations: u32)

  datatype Request = Request(frames: u32, claimBytes: u64)

  datatype Reservation = Reservation(incarnation: u64, frames: u32, claimBytes: u64)

  datatype Record = Record(reservation: Reservation, closing: bool)

  datatype Error =
    | InvalidLimits
    | InvalidRequest
    | InsufficientResources(requested: nat, available: nat)
    | InsufficientMemory(requested: nat, available: nat)
    | IncarnationCapacity
    | IdsExhausted
    | UnknownIncarnation
    | StillActive

  datatype Result<+T> = Ok(value: T) | Err(error: Error)

  /** Limits a book can be created with. */
  predicate Sound(l: Limits) {
    && 0 < l.producerReserve
    && l.retainedHistory + l.producerReserve <= l.resourceCapacity
    && l.allocatedBytes + l.fixedBytes <= l.memoryBudget
    && 0 < l.maxIncarnations
  }

  /** The checks of the constructor, in its order, with its overflow tests. */
  function CheckLimits(l: Limits): (r: Result<nat>)
    ensures r.Ok? <==> Sound(l)
    ensures r.Ok? ==> r.value == l.allocatedBytes + l.fixedBytes
    ensures r.Err? ==> r.error.InvalidLimits?
  {
    var protected := l.retainedHistory + l.producerReserve;
    if protected > U32_MAX then Err(InvalidLimits)
    else if l.producerReserve == 0 || protected > l.resourceCapacity then Err(InvalidLimits)
    else
      var committed := l.allocatedBytes + l.fixedBytes;
      if committed > U64_MAX then Err(InvalidLimits)
      else if committed > l.memoryBudget then Err(InvalidLimits)
      else if l.maxIncarnations == 0 then Err(InvalidLimits)
      else Ok(committed)
  }

  // ---- Sums over the live reservations ----

  type Table = map<u64, Record>

  /** Frames and bytes reserved by incarnations below `n`. */
  ghost function FramesTo(t: Table, n: nat): nat {
    if n == 0 then 0 else FramesTo(t, n - 1) + (if n - 1 in t then t[n - 1].reservation.frames else 0)
  }

  ghost function BytesTo(t: Table, n: nat): nat {
    if n == 0 then 0 else BytesTo(t, n - 1) + (if n - 1 in t then t[n - 1].reservation.claimBytes else 0)
  }

  /** Incarnations whose record is the same below `n` sum to the same. */
  lemma {:induction false} SameSums(t: Table, t': Table, n: nat)
    requires forall i: nat | i < n :: (i in t <==> i in t') && (i in t ==> t[i].reservation == t'[i].reservation)
    ensures FramesTo(t, n) == FramesTo(t', n) && BytesTo(t, n) == BytesTo(t', n)
  {
    if n > 0 {
      SameSums(t, t', n - 1);
    }
  }

  /** Dropping one record takes exactly its share out of both sums. */
  lemma {:induction false} RemoveFromSums(t: Table, id: u64, n: nat)
    requires id in t && id < n
    ensures FramesTo(t, n) == FramesTo(t - {id}, n) + t[id].reservation.frames
    ensures BytesTo(t, n) == BytesTo(t - {id}, n) + t[id].reservation.claimBytes
  {
    if id == n - 1 {
      SameSums(t, t - {id}, n - 1);
    } else {
      RemoveFromSums(t, id, n - 1);
    }
  }

  class AdmissionBook {
    const limits: Limits
    var nextIncarnation: u64
    var reservations: Table
    var reservedFrames: nat
    var committedBytes: nat
    /** Every identity ever granted, oldest first. */
    ghost var granted: seq<u64>

    ghost predicate Valid()
      reads this
    {
      && Sound(limits)
      && reservedFrames == FramesTo(reservations, nextIncarnation)
      && reservedFrames + limits.retainedHistory + limits.producerReserve <= limits.resourceCapacity
      && committedBytes == limits.allocatedBytes + limits.fixedBytes + BytesTo(reservations, nextIncarnation)
      && committedBytes <= limits.memoryBudget
      && |reservations| <= limits.maxIncarnations
      && IdsInv()
    }

    /** Identities are granted in increasing order and never again. */
    ghost predicate IdsInv()
      reads this
    {
      && nextIncarnation >= 1
      && (forall i, j | 0 <= i < j < |granted| :: granted[i] < granted[j])
      && (forall i | 0 <= i < |granted| :: granted[i] < nextIncarnation)
      && (forall id | id in reservations :: id in granted && reservations[id].reservation.incarnation == id)
    }

    constructor (limits: Limits)
      requires Sound(limits)
      ensures Valid() && this.limits == limits && reservations == map[] && granted == [] && nextIncarnation == 1
    {
      this.limits := limits;
      nextIncarnation := 1;
      reservations := map[];
      reservedFrames := 0;
      committedBytes := CheckLimits(limits).value;
      granted := [];
    }

    /** A book exists exactly for sound limits. */
    static method Create(limits: Limits) returns (r: Result<AdmissionBook>)
      ensures r.Ok? <==> Sound(limits)
      ensures r.Err? ==> r.error.InvalidLimits?
      ensures r.Ok? ==> fresh(r.value) && r.value.Valid() && r.value.limits == limits && r.value.reservations == map[]
    {
      var checked := CheckLimits(limits);
      if checked.Err? {
        return Err(checked.error);
      }
      var book := new AdmissionBook(limits);
      return Ok(book);
    }

    /** Resources still promisable; the subtraction never underflows. */
    function AvailableFrames(): (n: nat)
      requires Valid()
      reads this
      ensures n + FramesTo(reservations, nextIncarnation) + limits.retainedHistory + limits.producerReserve
           == limits.resourceCapacity
    {
      limits.resourceCapacity - limits.retainedHistory - limits.producerReserve - reservedFrames
    }

    /** Admission succeeds exactly when the request is meaningful and fits every limit;
        each refusal names the first limit it fails and changes nothing. */
    method Admit(request: Request) returns (r: Result<Reservation>)
      requires Valid()
      modifies this
      ensures Valid()
      ensures var frames, bytes := old(AvailableFrames()), limits.memoryBudget - old(committedBytes);
              match r
              case Ok(v) =>
                && v == Reservation(old(nextIncarnation), request.frames, request.claimBytes)
                && 0 < request.frames <= frames && 0 < request.claimBytes <= bytes
                && v.incarnation !in old(granted) && granted == old(granted) + [v.incarnation]
                && reservations == old(reservations)[v.incarnation := Record(v, false)]
                && |old(reservations)| < limits.maxIncarnations
              case Err(e) =>
                && unchanged(this)
                && match e
                   case InvalidRequest => request.frames == 0 || request.claimBytes == 0
                   case InsufficientResources(n, a) =>
                     0 < request.frames && 0 < request.claimBytes && n == request.frames > a == frames
                   case IncarnationCapacity =>
                     0 < request.frames <= frames && 0 < request.claimBytes && |reservations| == limits.maxIncarnations
                   case InsufficientMemory(n, a) =>
                     && 0 < request.frames <= frames && |reservations| < limits.maxIncarnations
                     && n == request.claimBytes > a == bytes
                   case IdsExhausted =>
                     && 0 < request.frames <= frames && 0 < request.claimBytes <= bytes
                     && |reservations| < limits.maxIncarnations && nextIncarnation == U64_MAX
                   case _ => false
    {
      if request.frames == 0 || request.claimBytes == 0 {
        return Err(InvalidRequest);
      }
      var frames := AvailableFrames();
      if request.frames > frames {
        return Err(InsufficientResources(request.frames, frames));
      }
      if |reservations| >= limits.maxIncarnations {
        return Err(IncarnationCapacity);
      }
      var bytes := limits.memoryBudget - committedBytes;
      if request.claimBytes > bytes {
        return Err(InsufficientMemory(request.claimBytes, bytes));
      }
      if nextIncarnation == U64_MAX {
        return Err(IdsExhausted);
      }
      var id := nextIncarnation;
      var reservation := Reservation(id, request.frames, request.claimBytes);
      ghost var before := reservations;
      nextIncarnation := id + 1;
      reservedFrames := reservedFrames + request.frames;
      committedBytes := committedBytes + request.claimBytes;
      reservations := reservations[id := Record(reservation, false)];
      granted := granted + [id];
      SameSums(before, reservations, id);
      return Ok(reservation);
    }

    /** Closing keeps the reservation and everything it holds. */
    method Close(id: u64) returns (r: Result<()>)
      requires Valid()
      modifies this`reservations
      ensures Valid()
      ensures r == if id in old(reservations) then Ok(()) else Err(UnknownIncarnation)
      ensures reservations == if r.Ok? then old(reservations)[id := old(reservations)[id].(closing := true)]
                              else old(reservations)
    {
      if id !in reservations {
        return Err(UnknownIncarnation);
      }
      SameSums(reservations, reservations[id := reservations[id].(closing := true)], nextIncarnation);
      reservations := reservations[id := reservations[id].(closing := true)];
      return Ok(());
    }

    /** Cleanup returns exactly what the incarnation had reserved, once, and only
        after it was closed. */
    method CompleteCleanup(id: u64) returns (r: Result<()>)
      requires Valid()
      modifies this`reservations, this`reservedFrames, this`committedBytes
      ensures Valid()
      ensures r == if id !in old(reservations) then Err(UnknownIncarnation)
                   else if !old(reservations)[id].closing then Err(StillActive) else Ok(())
      ensures r.Err? ==> unchanged(this)
      ensures r.Ok? ==> reservations == old(reservations) - {id}
      ensures r.Ok? ==> AvailableFrames() == old(AvailableFrames()) + old(reservations)[id].reservation.frames
      ensures r.Ok? ==> committedBytes == old(committedBytes) - old(reservations)[id].reservation.claimBytes
    {
      if id !in reservations {
        return Err(UnknownIncarnation);
      }
      if !reservations[id].closing {
        return Err(StillActive);
      }
      var reservation := reservations[id].reservation;
      RemoveFromSums(reservations, id, nextIncarnation);
      reservations := reservations - {id};
      reservedFrames := reservedFrames - reservation.frames;
      committedBytes := committedBytes - reservation.claimBytes;
      return Ok(());
    }
  }

  // ---- What a reservation is for ----

  /** Resources held by incarnations below `n`. */
  ghost function HeldTo(held: map<u64, set<nat>>, n: nat): set<nat> {
    if n == 0 then {} else HeldTo(held, n - 1) + (if n - 1 in held then held[n - 1] else {})
  }

  lemma {:induction false} HeldWithinSum(t: Table, held: map<u64, set<nat>>, n: nat)
    requires forall id | id in held :: id in t && |held[id]| <= t[id].reservation.frames
    ensures |HeldTo(held, n)| <= FramesTo(t, n)
  {
    if n > 0 {
      HeldWithinSum(t, held, n - 1);
      var before, more := HeldTo(held, n - 1), if n - 1 in held then held[n - 1] else {};
      assert |before + more| == |before| + |more| - |before * more|;
    }
  }

  /** However incarnations choose distinct resources within their grants, at least the
      retained history and the producer's reserve are left free. */
  lemma ReserveStaysFree(book: AdmissionBook, held: map<u64, set<nat>>)
    requires book.Valid()
    requires forall id | id in held :: id in book.reservations && |held[id]| <= book.reservations[id].reservation.frames
    ensures var used := HeldTo(held, book.nextIncarnation);
            && (forall id | id in held :: held[id] <= used)
            && book.limits.resourceCapacity - |used| >= book.limits.retainedHistory + book.limits.producerReserve
  {
    HeldWithinSum(book.reservations, held, book.nextIncarnation);
    forall id | id in held ensures held[id] <= HeldTo(held, book.nextIncarnation) {
      assert id in book.reservations && id in book.granted;
      HeldIncludes(held, id, book.nextIncarnation);
    }
  }

  lemma {:induction false} HeldIncludes(held: map<u64, set<nat>>, id: u64, n: nat)
    requires id in held && id < n
    ensures held[id] <= HeldTo(held, n)
  {
    if id < n - 1 {
      HeldIncludes(held, id, n - 1);
    }
  }
}

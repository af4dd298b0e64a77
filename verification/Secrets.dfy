/** What a service checks about its secrets before it starts. */
module Secrets {
  import opened Outcomes

  datatype SecretSpec = SecretSpec(name: string, purpose: string, awaits: string)

  datatype Complaint =
    | Missing(name: string)
    | Blank(name: string)
    | Shared(name: string, other: string, samePurpose: bool)

  /** An accepted secret: its place in the registry, its line there, and its value. */
  datatype Holder = Holder(at: nat, spec: SecretSpec, value: string)

  type Source = string -> Option<string>

  predicate RequiredNow(spec: SecretSpec) {
    spec.awaits == ""
  }

  /** The first accepted secret with this value. */
  function FirstWith(taken: seq<Holder>, value: string): (k: nat)
    ensures k <= |taken|
    ensures k < |taken| ==> taken[k].value == value
    ensures forall j :: 0 <= j < k ==> taken[j].value != value
  {
    if taken == [] || taken[0].value == value then 0 else 1 + FirstWith(taken[1..], value)
  }

  /** What the secret at place `n` adds: a complaint, or itself to the accepted ones, or nothing if nobody reads it. */
  function Verdict(spec: SecretSpec, n: nat, source: Source, taken: seq<Holder>): (seq<Complaint>, seq<Holder>) {
    if !RequiredNow(spec) then ([], taken)
    else
      match source(spec.name)
      case None => ([Missing(spec.name)], taken)
      case Some(value) =>
        if value == "" then ([Blank(spec.name)], taken)
        else
          var k := FirstWith(taken, value);
          if k < |taken| then ([Shared(spec.name, taken[k].spec.name, taken[k].spec.purpose == spec.purpose)], taken)
          else ([], taken + [Holder(n, spec, value)])
  }

  /** Complaints and accepted secrets after the first `n` of the registry. */
  function Inspected(registry: seq<SecretSpec>, source: Source, n: nat): (seq<Complaint>, seq<Holder>)
    requires n <= |registry|
  {
    if n == 0 then ([], [])
    else
      var (complaints, taken) := Inspected(registry, source, n - 1);
      var (more, kept) := Verdict(registry[n - 1], n - 1, source, taken);
      (complaints + more, kept)
  }

  method InspectSecrets(registry: seq<SecretSpec>, source: Source) returns (complaints: seq<Complaint>)
    ensures complaints == Inspected(registry, source, |registry|).0
  {
    complaints := [];
    var taken: seq<Holder> := [];
    for n := 0 to |registry|
      invariant (complaints, taken) == Inspected(registry, source, n)
    {
      var spec := registry[n];
      assert complaints + [] == complaints;
      if !RequiredNow(spec) {
        continue;
      }
      var found := source(spec.name);
      if found.None? {
        complaints := complaints + [Missing(spec.name)];
        continue;
      }
      if found.value == "" {
        complaints := complaints + [Blank(spec.name)];
        continue;
      }
      var k := FindHolder(taken, found.value);
      if k < |taken| {
        complaints := complaints + [Shared(spec.name, taken[k].spec.name, taken[k].spec.purpose == spec.purpose)];
      } else {
        taken := taken + [Holder(n, spec, found.value)];
      }
    }
  }

  method FindHolder(taken: seq<Holder>, value: string) returns (k: nat)
    ensures k == FirstWith(taken, value)
  {
    k := 0;
    while k < |taken| && taken[k].value != value
      invariant k <= |taken|
      invariant forall j :: 0 <= j < k ==> taken[j].value != value
    {
      k := k + 1;
    }
  }

  function Required(registry: seq<SecretSpec>, n: nat): nat
    requires n <= |registry|
  {
    if n == 0 then 0 else Required(registry, n - 1) + if RequiredNow(registry[n - 1]) then 1 else 0
  }

  predicate Present(spec: SecretSpec, source: Source) {
    source(spec.name).Some? && source(spec.name).value != ""
  }

  ghost predicate Found(taken: seq<Holder>, value: string) {
    FirstWith(taken, value) < |taken|
  }

  /** The accepted secret stands before place `n`, and no required secret before it has its value. */
  ghost predicate Earliest(registry: seq<SecretSpec>, source: Source, n: nat, holder: Holder) {
    holder.at < n && holder.at < |registry| && holder.spec == registry[holder.at]
        && HasValue(holder.spec, source, holder.value)
    && forall j :: 0 <= j < holder.at ==> !HasValue(registry[j], source, holder.value)
  }

  predicate HasValue(spec: SecretSpec, source: Source, value: string) {
    RequiredNow(spec) && value != "" && source(spec.name) == Some(value)
  }

  /** Every accepted secret is the earliest with its value, and every value in use has been accepted. */
  ghost predicate Kept(registry: seq<SecretSpec>, source: Source, n: nat, taken: seq<Holder>) {
    n <= |registry| &&
    (forall k :: 0 <= k < |taken| ==> Earliest(registry, source, n, taken[k])) &&
    (forall i, value :: 0 <= i < n && HasValue(registry[i], source, value) ==> Found(taken, value))
  }

  lemma {:induction false} FoundAmongMore(taken: seq<Holder>, last: Holder, value: string)
    ensures Found(taken + [last], value) <==> Found(taken, value) || last.value == value
  {
    if taken != [] { assert (taken + [last])[1..] == taken[1..] + [last]; }
    if taken != [] && taken[0].value != value { FoundAmongMore(taken[1..], last, value); }
  }

  /** A new secret repeats an accepted one exactly when it repeats any required secret before it. */
  lemma FoundIff(registry: seq<SecretSpec>, source: Source, n: nat, taken: seq<Holder>, value: string)
    requires n <= |registry| && Kept(registry, source, n, taken)
    ensures Found(taken, value) <==> exists i :: 0 <= i < n && HasValue(registry[i], source, value)
  {
    var k := FirstWith(taken, value);
    if k < |taken| {
      assert Earliest(registry, source, n, taken[k]);
      assert HasValue(registry[taken[k].at], source, value);
    }
  }

  lemma OneMoreIsKept(registry: seq<SecretSpec>, source: Source, n: nat, taken: seq<Holder>, value: string)
    requires n < |registry| && Kept(registry, source, n, taken) && HasValue(registry[n], source, value)
             && !Found(taken, value)
    ensures Kept(registry, source, n + 1, taken + [Holder(n, registry[n], value)])
  {
    var last := Holder(n, registry[n], value);
    FoundIff(registry, source, n, taken, value);
    assert Earliest(registry, source, n + 1, last);
    forall k | 0 <= k < |taken + [last]|
      ensures Earliest(registry, source, n + 1, (taken + [last])[k])
    {
      if k < |taken| { assert Earliest(registry, source, n, taken[k]); }
    }
    forall i, v | 0 <= i < n + 1 && HasValue(registry[i], source, v)
      ensures Found(taken + [last], v)
    {
      FoundAmongMore(taken, last, v);
    }
  }

  lemma VerdictKeeps(registry: seq<SecretSpec>, source: Source, n: nat, taken: seq<Holder>)
    requires n < |registry| && Kept(registry, source, n, taken)
    ensures Kept(registry, source, n + 1, Verdict(registry[n], n, source, taken).1)
  {
    var spec := registry[n];
    if RequiredNow(spec) && Present(spec, source) && !Found(taken, source(spec.name).value) {
      OneMoreIsKept(registry, source, n, taken, source(spec.name).value);
    } else {
    }
  }

  lemma {:induction false} TakenAreKept(registry: seq<SecretSpec>, source: Source, n: nat)
    requires n <= |registry|
    ensures Kept(registry, source, n, Inspected(registry, source, n).1)
  {
    if n > 0 {
      TakenAreKept(registry, source, n - 1);
      VerdictKeeps(registry, source, n - 1, Inspected(registry, source, n - 1).1);
    }
  }

  /** Every required secret is complained about or accepted, once. */
  lemma {:induction false} EachRequiredSecretCountsOnce(registry: seq<SecretSpec>, source: Source, n: nat)
    requires n <= |registry|
    ensures var (complaints, taken) := Inspected(registry, source, n); |complaints| + |taken| == Required(registry, n)
  {
    if n > 0 { EachRequiredSecretCountsOnce(registry, source, n - 1); }
  }

  /** The secret at place `n` gives no cause for complaint beside those before it. */
  ghost predicate Fits(registry: seq<SecretSpec>, source: Source, n: nat) {
    n < |registry| && RequiredNow(registry[n]) ==>
      && Present(registry[n], source)
      && !(exists i :: 0 <= i < n && HasValue(registry[i], source, source(registry[n].name).value))
  }

  lemma NewComplaintIff(registry: seq<SecretSpec>, source: Source, n: nat, taken: seq<Holder>)
    requires n < |registry| && Kept(registry, source, n, taken)
    ensures Verdict(registry[n], n, source, taken).0 == [] <==> Fits(registry, source, n)
  {
    if RequiredNow(registry[n]) && Present(registry[n], source) {
      FoundIff(registry, source, n, taken, source(registry[n].name).value);
    }
  }

  lemma {:induction false} NoComplaintsWhenAllFit(registry: seq<SecretSpec>, source: Source, n: nat)
    requires n <= |registry|
    ensures Inspected(registry, source, n).0 == [] <==> forall i :: 0 <= i < n ==> Fits(registry, source, i)
  {
    if n > 0 {
      NoComplaintsWhenAllFit(registry, source, n - 1);
      TakenAreKept(registry, source, n - 1);
      NewComplaintIff(registry, source, n - 1, Inspected(registry, source, n - 1).1);
      var (complaints, taken) := Inspected(registry, source, n - 1);
      var (more, kept) := Verdict(registry[n - 1], n - 1, source, taken);
      assert |complaints + more| == |complaints| + |more|;
    }
  }

  predicate AllPresent(registry: seq<SecretSpec>, source: Source) {
    forall i :: 0 <= i < |registry| && RequiredNow(registry[i]) ==> Present(registry[i], source)
  }

  predicate AllDifferent(registry: seq<SecretSpec>, source: Source) {
    forall i, j :: 0 <= i < j < |registry| && RequiredNow(registry[i]) && RequiredNow(registry[j]) ==>
      source(registry[i].name) != source(registry[j].name)
  }

  ghost predicate AllFit(registry: seq<SecretSpec>, source: Source) {
    forall i :: 0 <= i < |registry| ==> Fits(registry, source, i)
  }

  lemma FittingOnesDiffer(registry: seq<SecretSpec>, source: Source)
    requires AllFit(registry, source)
    ensures AllPresent(registry, source) && AllDifferent(registry, source)
  {
    forall i | 0 <= i < |registry| && RequiredNow(registry[i])
      ensures Present(registry[i], source)
    {
      assert Fits(registry, source, i);
    }
    forall i, j | 0 <= i < j < |registry| && RequiredNow(registry[i]) && RequiredNow(registry[j])
      ensures source(registry[i].name) != source(registry[j].name)
    {
      assert Fits(registry, source, j);
      assert !HasValue(registry[i], source, source(registry[j].name).value);
    }
  }

  /** Nothing is complained about exactly when all required secrets are there, not empty and pairwise different. */
  lemma NoComplaintsIff(registry: seq<SecretSpec>, source: Source)
    ensures Inspected(registry, source, |registry|).0 == []
            <==> AllPresent(registry, source) && AllDifferent(registry, source)
  {
    NoComplaintsWhenAllFit(registry, source, |registry|);
    if AllFit(registry, source) { FittingOnesDiffer(registry, source); }
    if AllPresent(registry, source) && AllDifferent(registry, source) {
      forall i | 0 <= i < |registry|
        ensures Fits(registry, source, i)
      {
      }
    }
  }

  method VerifySecrets(registry: seq<SecretSpec>, source: Source) returns (refusal: Option<Error>)
    ensures refusal == if AllPresent(registry, source) && AllDifferent(registry, source) then None
                       else Some(Error("secrets_incomplete"))
  {
    var complaints := InspectSecrets(registry, source);
    NoComplaintsIff(registry, source);
    return if complaints == [] then None else Some(Error("secrets_incomplete"));
  }

  /** "Shared" names the earliest required secret with that value, and the one complained about comes after it. */
  ghost predicate NamesEarliest(registry: seq<SecretSpec>, source: Source, n: nat, complaint: Complaint) {
    complaint.Shared? ==>
      exists j, holder: Holder :: holder.at < j < n && SharedBy(registry, source, j, holder, complaint)
  }

  ghost predicate SharedBy(registry: seq<SecretSpec>, source: Source, j: nat, holder: Holder, complaint: Complaint) {
    && j < |registry|
    && complaint == Shared(registry[j].name, holder.spec.name, holder.spec.purpose == registry[j].purpose)
    && Earliest(registry, source, j, holder) && HasValue(registry[j], source, holder.value)
  }

  lemma NewComplaintNamesEarliest(registry: seq<SecretSpec>, source: Source, n: nat, taken: seq<Holder>, c: Complaint)
    requires n < |registry| && Kept(registry, source, n, taken) && c in Verdict(registry[n], n, source, taken).0
    ensures NamesEarliest(registry, source, n + 1, c)
  {
    if c.Shared? {
      var holder := taken[FirstWith(taken, source(registry[n].name).value)];
      assert Earliest(registry, source, n, holder);
      assert SharedBy(registry, source, n, holder, c);
    }
  }

  lemma {:induction false} SharedNamesTheEarliestHolder(registry: seq<SecretSpec>, source: Source, n: nat, c: Complaint)
    requires n <= |registry| && c in Inspected(registry, source, n).0
    ensures NamesEarliest(registry, source, n, c)
  {
    var (complaints, taken) := Inspected(registry, source, n - 1);
    if c in complaints {
      SharedNamesTheEarliestHolder(registry, source, n - 1, c);
    } else {
      TakenAreKept(registry, source, n - 1);
      NewComplaintNamesEarliest(registry, source, n - 1, taken, c);
    }
  }

  // ----- exactly what is complained about

  /** The required secret at place `j` has the value of the one at `n`, and no required one before it has. */
  ghost predicate FirstToHold(registry: seq<SecretSpec>, source: Source, j: nat, n: nat) {
    && j < n < |registry| && registry[j].awaits == "" && source(registry[j].name) == source(registry[n].name)
    && forall i :: 0 <= i < j && registry[i].awaits == "" ==> source(registry[i].name) != source(registry[n].name)
  }

  /** This complaint is due about the secret at place `n`. */
  ghost predicate Due(registry: seq<SecretSpec>, source: Source, n: nat, complaint: Complaint) {
    n < |registry| && registry[n].awaits == "" && complaint.name == registry[n].name &&
    match complaint
    case Missing(name) => source(name) == None
    case Blank(name) => source(name) == Some("")
    case Shared(name, other, same) =>
      && source(name).Some? && source(name).value != ""
      && exists j: nat :: FirstToHold(registry, source, j, n) && other == registry[j].name
                     && (same <==> registry[j].purpose == registry[n].purpose)
  }

  lemma EarliestHolds(registry: seq<SecretSpec>, source: Source, n: nat, holder: Holder)
    requires n < |registry| && Earliest(registry, source, n, holder)
    requires source(registry[n].name) == Some(holder.value) && holder.value != ""
    ensures FirstToHold(registry, source, holder.at, n) && registry[holder.at] == holder.spec
    ensures forall j: nat :: FirstToHold(registry, source, j, n) ==> j == holder.at
  {
    forall i | 0 <= i < holder.at && registry[i].awaits == ""
      ensures source(registry[i].name) != source(registry[n].name)
    {
      assert !HasValue(registry[i], source, holder.value);
    }
    assert HasValue(registry[holder.at], source, holder.value);
  }

  lemma NobodyHolds(registry: seq<SecretSpec>, source: Source, n: nat, taken: seq<Holder>, value: string)
    requires n < |registry| && Kept(registry, source, n, taken)
    requires source(registry[n].name) == Some(value) && value != ""
    requires FirstWith(taken, value) == |taken|
    ensures forall j: nat :: !FirstToHold(registry, source, j, n)
  {
    FoundIff(registry, source, n, taken, value);
    forall j: nat | FirstToHold(registry, source, j, n)
      ensures false
    {
      assert HasValue(registry[j], source, value);
    }
  }

  lemma VerdictIsDue(registry: seq<SecretSpec>, source: Source, n: nat, taken: seq<Holder>, c: Complaint)
    requires n < |registry| && Kept(registry, source, n, taken)
    ensures c in Verdict(registry[n], n, source, taken).0 <==> Due(registry, source, n, c)
  {
    var spec := registry[n];
    if RequiredNow(spec) && Present(spec, source) {
      var value := source(spec.name).value;
      var k := FirstWith(taken, value);
      if k < |taken| {
        assert Earliest(registry, source, n, taken[k]);
        EarliestHolds(registry, source, n, taken[k]);
        assert FirstToHold(registry, source, taken[k].at, n);
      } else {
        NobodyHolds(registry, source, n, taken, value);
      }
    }
  }

  lemma {:induction false} DueSoFar(registry: seq<SecretSpec>, source: Source, n: nat, c: Complaint)
    requires n <= |registry|
    ensures c in Inspected(registry, source, n).0 <==> exists i :: 0 <= i < n && Due(registry, source, i, c)
  {
    if n > 0 {
      var (complaints, taken) := Inspected(registry, source, n - 1);
      DueSoFar(registry, source, n - 1, c);
      TakenAreKept(registry, source, n - 1);
      VerdictIsDue(registry, source, n - 1, taken, c);
      assert Due(registry, source, n - 1, c) ==> exists i :: 0 <= i < n && Due(registry, source, i, c);
    }
  }

  /**
   * The complaints are those that are due, each about its own secret: it is missing, or it is empty, or it has the
   * value of an earlier one, and then the first of those is named.
   */
  lemma ComplaintsAreExact(registry: seq<SecretSpec>, source: Source, c: Complaint)
    ensures c in Inspected(registry, source, |registry|).0
            <==> exists n :: 0 <= n < |registry| && Due(registry, source, n, c)
  {
    DueSoFar(registry, source, |registry|, c);
  }

  /** They come in the order of the registry: what is found out about its beginning stands at the beginning. */
  lemma {:induction false} ComplaintsComeInOrder(registry: seq<SecretSpec>, source: Source, m: nat, n: nat)
    requires m <= n <= |registry|
    ensures Inspected(registry, source, m).0 <= Inspected(registry, source, n).0
    decreases n
  {
    if m < n { ComplaintsComeInOrder(registry, source, m, n - 1); }
  }
}

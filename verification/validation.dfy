/**
  The shape every `Validate` method shares: checks run one after another,
  never short-circuited, each appending at most one `{message, field}` entry.
 */
module Validation {
  import opened Domain

  /** `if failed { errs = append(errs, ErrorResponse{message, field}) }`, as the entries it appends. */
  function Check(failed: bool, message: string, field: string): (errs: seq<ErrorResponse>)
    ensures errs != [] <==> failed
    ensures forall i :: 0 <= i < |errs| ==> errs[i] == ErrorResponse(message, field)
    ensures |errs| <= 1
  {
    if failed then [ErrorResponse(message, field)] else []
  }

  /** A check an update runs: it fires only on a supplied (non-empty) value that breaks its rule. */
  function SuppliedCheck(value: string, ok: bool, message: string, field: string): (errs: seq<ErrorResponse>)
    ensures errs != [] <==> value != "" && !ok
    ensures forall i :: 0 <= i < |errs| ==> errs[i] == ErrorResponse(message, field)
    ensures |errs| <= 1
  {
    Check(value != "" && !ok, message, field)
  }

  /** Some entry of the list names `field`. */
  predicate HasError(errs: seq<ErrorResponse>, field: string) {
    exists i :: 0 <= i < |errs| && errs[i].field == field
  }

  /** What the checks for one field contribute: at most one entry, naming that field. */
  predicate SingleField(group: seq<ErrorResponse>, field: string) {
    |group| <= 1 && forall i :: 0 <= i < |group| ==> group[i].field == field
  }

  /** Appending one field's entries adds that field, when they are non-empty, and nothing else. */
  lemma HasErrorAppend(errs: seq<ErrorResponse>, group: seq<ErrorResponse>, field: string)
    requires SingleField(group, field)
    ensures forall x {:trigger HasError(errs + group, x)} ::
      HasError(errs + group, x) <==> HasError(errs, x) || (group != [] && x == field)
  {
    forall x ensures HasError(errs + group, x) <==> HasError(errs, x) || (group != [] && x == field) {
      if HasError(errs + group, x) {
        var i :| 0 <= i < |errs + group| && (errs + group)[i].field == x;
        if i >= |errs| {
          assert group[i - |errs|].field == x;
        }
      }
      if HasError(errs, x) {
        var i :| 0 <= i < |errs| && errs[i].field == x;
        assert (errs + group)[i].field == x;
      }
      if group != [] && x == field {
        assert (errs + group)[|errs|].field == x;
      }
    }
  }

  /** Two checks in a row, each about one field: a field is named exactly when its check fired. */
  lemma HasErrorOfTwo(a: seq<ErrorResponse>, fa: string, b: seq<ErrorResponse>, fb: string)
    requires SingleField(a, fa) && SingleField(b, fb)
    ensures forall x :: HasError(a + b, x) <==> (a != [] && x == fa) || (b != [] && x == fb)
  {
    HasErrorAppend([], a, fa);
    assert [] + a == a;
    HasErrorAppend(a, b, fb);
  }

  /** The same for three checks. */
  lemma HasErrorOfThree(a: seq<ErrorResponse>, fa: string, b: seq<ErrorResponse>, fb: string, c: seq<ErrorResponse>, fc: string)
    requires SingleField(a, fa) && SingleField(b, fb) && SingleField(c, fc)
    ensures forall x :: HasError(a + b + c, x) <==> (a != [] && x == fa) || (b != [] && x == fb) || (c != [] && x == fc)
  {
    HasErrorOfTwo(a, fa, b, fb);
    HasErrorAppend(a + b, c, fc);
  }

  /** The same for four checks. */
  lemma HasErrorOfFour(a: seq<ErrorResponse>, fa: string, b: seq<ErrorResponse>, fb: string, c: seq<ErrorResponse>, fc: string,
     d: seq<ErrorResponse>, fd: string)
    requires SingleField(a, fa) && SingleField(b, fb) && SingleField(c, fc) && SingleField(d, fd)
    ensures forall x :: HasError(a + b + c + d, x) <==>
      (a != [] && x == fa) || (b != [] && x == fb) || (c != [] && x == fc) || (d != [] && x == fd)
  {
    HasErrorOfThree(a, fa, b, fb, c, fc);
    HasErrorAppend(a + b + c, d, fd);
  }

  /** The same for five checks. */
  lemma HasErrorOfFive(a: seq<ErrorResponse>, fa: string, b: seq<ErrorResponse>, fb: string, c: seq<ErrorResponse>, fc: string,
     d: seq<ErrorResponse>, fd: string, e: seq<ErrorResponse>, fe: string)
    requires SingleField(a, fa) && SingleField(b, fb) && SingleField(c, fc) && SingleField(d, fd) && SingleField(e, fe)
    ensures forall x :: HasError(a + b + c + d + e, x) <==>
      (a != [] && x == fa) || (b != [] && x == fb) || (c != [] && x == fc) || (d != [] && x == fd) || (e != [] && x == fe)
  {
    HasErrorOfFour(a, fa, b, fb, c, fc, d, fd);
    HasErrorAppend(a + b + c + d, e, fe);
  }

  /** The same for six checks. */
  lemma HasErrorOfSix(a: seq<ErrorResponse>, fa: string, b: seq<ErrorResponse>, fb: string, c: seq<ErrorResponse>, fc: string,
     d: seq<ErrorResponse>, fd: string, e: seq<ErrorResponse>, fe: string, f: seq<ErrorResponse>, ff: string)
    requires SingleField(a, fa) && SingleField(b, fb) && SingleField(c, fc) && SingleField(d, fd)
    requires SingleField(e, fe) && SingleField(f, ff)
    ensures forall x :: HasError(a + b + c + d + e + f, x) <==>
      || (a != [] && x == fa) || (b != [] && x == fb) || (c != [] && x == fc)
      || (d != [] && x == fd) || (e != [] && x == fe) || (f != [] && x == ff)
  {
    HasErrorOfFive(a, fa, b, fb, c, fc, d, fd, e, fe);
    HasErrorAppend(a + b + c + d + e, f, ff);
  }

  /** Six groups of checks report nothing exactly when none of them does. */
  lemma EmptyOfSix(a: seq<ErrorResponse>, b: seq<ErrorResponse>, c: seq<ErrorResponse>, d: seq<ErrorResponse>,
     e: seq<ErrorResponse>, f: seq<ErrorResponse>)
    ensures a + b + c + d + e + f == [] <==> a == [] && b == [] && c == [] && d == [] && e == [] && f == []
  {
    assert |a + b + c + d + e + f| == |a| + |b| + |c| + |d| + |e| + |f|;
  }

  /**
    The entries name fields in a fixed order: `rank` gives each field its
    position in that order, every rank is below `n`, and ranks strictly
    increase along the list, so no field is named twice.
   */
  predicate Ordered(errs: seq<ErrorResponse>, rank: string -> nat, n: nat) {
    && (forall i :: 0 <= i < |errs| ==> rank(errs[i].field) < n)
    && (forall i, j :: 0 <= i < j < |errs| ==> rank(errs[i].field) < rank(errs[j].field))
  }

  lemma {:induction false} RankAtLeastIndex(errs: seq<ErrorResponse>, rank: string -> nat, n: nat, i: nat)
    requires Ordered(errs, rank, n)
    requires i < |errs|
    ensures rank(errs[i].field) >= i
  {
    if i > 0 {
      RankAtLeastIndex(errs, rank, n, i - 1);
    }
  }

  /** An ordered list names each of the `n` fields at most once, so it has at most `n` entries. */
  lemma OrderedBound(errs: seq<ErrorResponse>, rank: string -> nat, n: nat)
    requires Ordered(errs, rank, n)
    ensures |errs| <= n
    ensures forall i, j :: 0 <= i < j < |errs| ==> errs[i].field != errs[j].field
  {
    if |errs| > 0 {
      RankAtLeastIndex(errs, rank, n, |errs| - 1);
    }
  }

  /** Appending one field's entries, when that field ranks after every field already present, keeps the order. */
  lemma OrderedAppend(errs: seq<ErrorResponse>, group: seq<ErrorResponse>, field: string, rank: string -> nat, n: nat)
    requires Ordered(errs, rank, n)
    requires SingleField(group, field)
    requires rank(field) < n
    requires forall i :: 0 <= i < |errs| ==> rank(errs[i].field) < rank(field)
    ensures Ordered(errs + group, rank, n)
    ensures forall i :: 0 <= i < |errs + group| ==> rank((errs + group)[i].field) <= rank(field)
  {
  }

  /** Two checks in a row, about fields of increasing rank, give an ordered list. */
  lemma OrderedOfTwo(a: seq<ErrorResponse>, fa: string, b: seq<ErrorResponse>, fb: string, rank: string -> nat, n: nat)
    requires SingleField(a, fa) && SingleField(b, fb)
    requires rank(fa) < rank(fb) < n
    ensures Ordered(a + b, rank, n)
    ensures forall i :: 0 <= i < |a + b| ==> rank((a + b)[i].field) <= rank(fb)
  {
    assert [] + a == a;
    OrderedAppend([], a, fa, rank, n);
    OrderedAppend(a, b, fb, rank, n);
  }

  /** The same for three checks. */
  lemma OrderedOfThree(a: seq<ErrorResponse>, fa: string, b: seq<ErrorResponse>, fb: string, c: seq<ErrorResponse>, fc: string,
     rank: string -> nat, n: nat)
    requires SingleField(a, fa) && SingleField(b, fb) && SingleField(c, fc)
    requires rank(fa) < rank(fb) < rank(fc) < n
    ensures Ordered(a + b + c, rank, n)
    ensures forall i :: 0 <= i < |a + b + c| ==> rank((a + b + c)[i].field) <= rank(fc)
  {
    OrderedOfTwo(a, fa, b, fb, rank, n);
    OrderedAppend(a + b, c, fc, rank, n);
  }

  /** The same for four checks. */
  lemma OrderedOfFour(a: seq<ErrorResponse>, fa: string, b: seq<ErrorResponse>, fb: string, c: seq<ErrorResponse>, fc: string,
     d: seq<ErrorResponse>, fd: string, rank: string -> nat, n: nat)
    requires SingleField(a, fa) && SingleField(b, fb) && SingleField(c, fc) && SingleField(d, fd)
    requires rank(fa) < rank(fb) < rank(fc) < rank(fd) < n
    ensures Ordered(a + b + c + d, rank, n)
    ensures forall i :: 0 <= i < |a + b + c + d| ==> rank((a + b + c + d)[i].field) <= rank(fd)
  {
    OrderedOfThree(a, fa, b, fb, c, fc, rank, n);
    OrderedAppend(a + b + c, d, fd, rank, n);
  }

  /** The same for five checks. */
  lemma OrderedOfFive(a: seq<ErrorResponse>, fa: string, b: seq<ErrorResponse>, fb: string, c: seq<ErrorResponse>, fc: string,
     d: seq<ErrorResponse>, fd: string, e: seq<ErrorResponse>, fe: string, rank: string -> nat, n: nat)
    requires SingleField(a, fa) && SingleField(b, fb) && SingleField(c, fc) && SingleField(d, fd) && SingleField(e, fe)
    requires rank(fa) < rank(fb) < rank(fc) < rank(fd) < rank(fe) < n
    ensures Ordered(a + b + c + d + e, rank, n)
    ensures forall i :: 0 <= i < |a + b + c + d + e| ==> rank((a + b + c + d + e)[i].field) <= rank(fe)
  {
    OrderedOfFour(a, fa, b, fb, c, fc, d, fd, rank, n);
    OrderedAppend(a + b + c + d, e, fe, rank, n);
  }

  /** The same for six checks. */
  lemma OrderedOfSix(a: seq<ErrorResponse>, fa: string, b: seq<ErrorResponse>, fb: string, c: seq<ErrorResponse>, fc: string,
     d: seq<ErrorResponse>, fd: string, e: seq<ErrorResponse>, fe: string, f: seq<ErrorResponse>, ff: string,
     rank: string -> nat, n: nat)
    requires SingleField(a, fa) && SingleField(b, fb) && SingleField(c, fc)
    requires SingleField(d, fd) && SingleField(e, fe) && SingleField(f, ff)
    requires rank(fa) < rank(fb) < rank(fc) < rank(fd) < rank(fe) < rank(ff) < n
    ensures Ordered(a + b + c + d + e + f, rank, n)
  {
    OrderedOfFive(a, fa, b, fb, c, fc, d, fd, e, fe, rank, n);
    OrderedAppend(a + b + c + d + e, f, ff, rank, n);
  }
}

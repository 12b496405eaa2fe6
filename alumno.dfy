/** A student's record: identifier, full name and the list of scores, with appending of a
    score and the mean. Scores are modelled as reals. */
module Alumnos {

  /** Sum of the scores, added left to right. */
  function Sum(s: seq<real>): real {
    if s == [] then 0.0 else Sum(s[..|s| - 1]) + s[|s| - 1]
  }

  /** Arithmetic mean; 0 for an empty list. */
  function Mean(s: seq<real>): (r: real)
    ensures s == [] ==> r == 0.0
    ensures s != [] ==> r * (|s| as real) == Sum(s)
  {
    if s == [] then 0.0 else Sum(s) / (|s| as real)
  }

  lemma SumAppend(s: seq<real>, x: real)
    ensures Sum(s + [x]) == Sum(s) + x
  {
    assert (s + [x])[..|s|] == s;
  }

  /** The sum of `n` copies of `c` is `n * c`. */
  lemma {:induction false} SumConstant(s: seq<real>, c: real)
    requires forall i :: 0 <= i < |s| ==> s[i] == c
    ensures Sum(s) == (|s| as real) * c
  {
    if s != [] {
      SumConstant(s[..|s| - 1], c);
    }
  }

  /** The mean of a non-empty list of equal scores is that score. */
  lemma MeanConstant(s: seq<real>, c: real)
    requires s != []
    requires forall i :: 0 <= i < |s| ==> s[i] == c
    ensures Mean(s) == c
  {
    SumConstant(s, c);
  }

  /** Scores between `lo` and `hi` add up to between `|s| * lo` and `|s| * hi`. */
  lemma {:induction false} SumBounds(s: seq<real>, lo: real, hi: real)
    requires forall i :: 0 <= i < |s| ==> lo <= s[i] <= hi
    ensures (|s| as real) * lo <= Sum(s) <= (|s| as real) * hi
  {
    if s != [] {
      SumBounds(s[..|s| - 1], lo, hi);
    }
  }

  /** The mean of a non-empty list lies between its smallest and largest possible score. */
  lemma MeanBounds(s: seq<real>, lo: real, hi: real)
    requires s != []
    requires forall i :: 0 <= i < |s| ==> lo <= s[i] <= hi
    ensures lo <= Mean(s) <= hi
  {
    SumBounds(s, lo, hi);
  }

  /** Appending a score: the new mean is the old sum plus the score over one more entry. */
  lemma MeanAfterAppend(s: seq<real>, x: real)
    ensures Mean(s + [x]) == (Sum(s) + x) / ((|s| + 1) as real)
  {
    SumAppend(s, x);
  }

  /** The worked examples of the record's documentation. */
  lemma MeanExamples()
    ensures Mean([]) == 0.0
    ensures Mean([7.0, 8.0, 9.0]) == 8.0
    ensures Mean([5.5]) == 5.5
    ensures Mean([10.0, 10.0, 10.0, 10.0, 10.0]) == 10.0
    ensures Mean([-1.0, 3.0]) == 1.0
    ensures Mean([7.0, 8.0]) == 7.5
  {
    MeanConstant([10.0, 10.0, 10.0, 10.0, 10.0], 10.0);
    assert [-1.0, 3.0][..1] == [-1.0];
    assert [7.0, 8.0][..1] == [7.0];
    assert [7.0, 8.0, 9.0][..2] == [7.0, 8.0] && [7.0, 8.0][..1] == [7.0];
  }

  /** The right operand of `+`: a number (an int or a float) or any other value. */
  datatype Operand = Number(value: real) | NotANumber

  /** The outcome of `+`: a new record, or the type error raised for a non-number. */
  datatype AddResult = Added(alumno: Alumno) | TypeError

  class Alumno {
    var numIden: int
    var nombre: string
    var notas: seq<real>

    /** A record with the given name, identifier (-1 when unknown) and a copy of the scores
        (none by default). */
    constructor (nombre: string, numIden: int := -1, notas: seq<real> := [])
      ensures this.nombre == nombre && this.numIden == numIden && this.notas == notas
    {
      this.nombre := nombre;
      this.numIden := numIden;
      this.notas := notas;
    }

    /** `self + other`: a new record with `other` appended to the scores; this record is
        left as it was. A non-number is rejected with a type error. */
    method Add(other: Operand) returns (r: AddResult)
      ensures r.TypeError? <==> other.NotANumber?
      ensures r.Added? ==> fresh(r.alumno)
      ensures r.Added? ==> r.alumno.nombre == nombre && r.alumno.numIden == numIden
      ensures r.Added? ==> r.alumno.notas == notas + [other.value]
      ensures notas == old(notas) && nombre == old(nombre) && numIden == old(numIden)
    {
      if other.NotANumber? {
        return TypeError;
      }
      var a := new Alumno(nombre, numIden, notas + [other.value]);
      r := Added(a);
    }

    /** The mean score; 0 with no scores. */
    function Media(): (r: real)
      reads this
      ensures notas == [] ==> r == 0.0
      ensures notas != [] ==> r * (|notas| as real) == Sum(notas)
    {
      Mean(notas)
    }
  }

  /** Records built without scores never share them: adding a score to one leaves a second
      default record, and the first, without scores. */
  method DefaultScoresNotShared() returns (juan: Alumno, pedro: Alumno, pedro2: Alumno)
    ensures fresh(juan) && fresh(pedro) && fresh(pedro2)
    ensures juan.nombre == "Juan Perez" && juan.numIden == -1 && juan.notas == []
    ensures pedro.notas == [] && pedro2.notas == [6.0]
    ensures pedro2.nombre == "Pedro Garcia" && pedro2.numIden == -1
  {
    juan := new Alumno("Juan Perez");
    pedro := new Alumno("Pedro Garcia");
    var r := pedro.Add(Number(6.0));
    pedro2 := r.alumno;
  }

  /** The record keeps its own copy of the scores: overwriting any entry of the caller's
      list afterwards does not reach the record. */
  method ScoresAreCopied(lista: array<real>, i: nat, x: real) returns (a: Alumno)
    modifies lista
    ensures fresh(a) && a.notas == old(lista[..])
    ensures i < lista.Length ==> lista[..] == old(lista[..])[i := x]
  {
    a := new Alumno("Maria Lopez", 123, lista[..]);
    if i < lista.Length {
      lista[i] := x;
    }
  }
}

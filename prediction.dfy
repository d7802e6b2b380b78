/** The read-out of `predecir`: the index of the largest probability
    (`probabilidades.indexOf(Math.max(...probabilidades))`) and the pairing
    of each label with its probability. Probabilities are modelled as reals;
    NaN and -Infinity are not modelled. */
module Prediction {
  import opened Wrappers

  /** `Math.max(...p)` for a non-empty p. */
  function Max(p: seq<real>): (m: real)
    requires |p| > 0
    ensures m in p
    ensures forall j :: 0 <= j < |p| ==> p[j] <= m
  {
    if |p| == 1 then p[0]
    else
      var rest := Max(p[1..]);
      if p[0] >= rest then p[0] else rest
  }

  /** `p.indexOf(x)`: the first position holding x, or -1. */
  function IndexOf(p: seq<real>, x: real): (k: int)
    ensures -1 <= k < |p|
    ensures k == -1 <==> x !in p
    ensures k >= 0 ==> p[k] == x && forall j :: 0 <= j < k ==> p[j] != x
  {
    if p == [] then -1
    else if p[0] == x then 0
    else
      var k := IndexOf(p[1..], x);
      if k < 0 then -1 else k + 1
  }

  /** k holds a largest value and every earlier position holds a smaller one. */
  predicate IsFirstMax(p: seq<real>, k: int) {
    0 <= k < |p| &&
    (forall j :: 0 <= j < |p| ==> p[j] <= p[k]) &&
    (forall j :: 0 <= j < k ==> p[j] < p[k])
  }

  /** `p.indexOf(Math.max(...p))`; for an empty p, Math.max gives -Infinity,
      which indexOf does not find. */
  function ArgMax(p: seq<real>): (k: int)
    ensures |p| == 0 ==> k == -1
    ensures |p| > 0 ==> IsFirstMax(p, k)
  {
    if |p| == 0 then -1 else IndexOf(p, Max(p))
  }

  /** `a[i]` in JavaScript: undefined outside the array. */
  function At<T>(a: seq<T>, i: int): (r: Option<T>)
    ensures r.Some? <==> 0 <= i < |a|
    ensures r.Some? ==> r.value == a[i]
  {
    if 0 <= i < |a| then Some(a[i]) else None
  }

  datatype ClassProbability = ClassProbability(etiqueta: string, probabilidad: Option<real>)

  /** The object `predecir` resolves with. */
  datatype Prediccion = Prediccion(
    clase: Option<string>,
    probabilidad: Option<real>,
    todasLasProbabilidades: seq<ClassProbability>)

  /** The prediction read from the label list and the engine's output vector. */
  function Readout(etiquetas: seq<string>, p: seq<real>): (r: Prediccion)
    ensures |r.todasLasProbabilidades| == |etiquetas|
    ensures forall i :: 0 <= i < |etiquetas| ==>
      r.todasLasProbabilidades[i].etiqueta == etiquetas[i] &&
      r.todasLasProbabilidades[i].probabilidad == (if i < |p| then Some(p[i]) else None)
    ensures forall k :: IsFirstMax(p, k) ==>
      r.clase == At(etiquetas, k) && r.probabilidad == Some(p[k])
    ensures |p| == 0 ==> r.clase == None && r.probabilidad == None
    ensures 0 < |p| <= |etiquetas| ==>
      r.clase.Some? && r.clase.value in etiquetas &&
      r.probabilidad.Some? && forall j :: 0 <= j < |p| ==> p[j] <= r.probabilidad.value
  {
    var maxIndex := ArgMax(p);
    Prediccion(
      At(etiquetas, maxIndex),
      At(p, maxIndex),
      seq(|etiquetas|, i requires 0 <= i < |etiquetas| => ClassProbability(etiquetas[i], At(p, i))))
  }
}

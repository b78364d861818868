/**
 An optional value, and what a list of numbers holds.
 */
module Basics {

  datatype Option<+T> = None | Some(value: T)

  ghost predicate Distinct(l: seq<nat>) { forall i, j :: 0 <= i < j < |l| ==> l[i] != l[j] }

  ghost function Elems(l: seq<nat>): set<nat> { set x | x in l }
}

/** The records passed between the pipeline stages (BondsServer/Model.cs).
    Only the bond id and the `BondUpdate` pair take part in the stages' logic;
    every other field is payload that the stages carry without looking at it. */
module BondModel {

  datatype Option<+T> = None | Some(value: T)

  datatype Result<+T, +E> = Success(value: T) | Failure(error: E)

  /** A bond as produced by the inventory feed. */
  datatype Bond = Bond(id: string, price: int, faceValue: int, coupon: int, duration: int)

  /** A bond together with the yield computed for it. The C# class derives from
      `Bond`; here the base record is a field. The C# `float` yield is an opaque
      value: no stage modelled here computes with it. */
  datatype BondWithStatistics = BondWithStatistics(bond: Bond, bondYield: real)

  /** The change notification the cache stage hands to the batch stage. */
  datatype BondUpdate = BondUpdate(bondId: string, serializedStatus: string)
}

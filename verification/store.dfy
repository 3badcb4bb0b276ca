/**
 The boundary to the cloud document store. The store itself is not modelled:
 every call into it is reduced to whether it returned or threw, and every
 clock reading to an opaque instant supplied by the caller.
 */
module Store {

  /** The outcome of one awaited store call (`getDoc`, `setDoc`, `addDoc`,
      `updateDoc`, `deleteDoc`, `getDocs`): it either resolves or throws. */
  datatype StoreCall = Succeeds | Throws

  /** A `Date` value. Only its identity matters to the model. */
  datatype Instant = Instant(millis: int)
}

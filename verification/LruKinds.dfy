/** The segments of the LRU, one queue of each for every slab class. */
module LruKinds {
  datatype Lru = Hot | Warm | Cold | Temp
}

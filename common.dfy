/** Optional values: `None` stands for JavaScript's `undefined`. */
module Wrappers {
  datatype Option<+T> = None | Some(value: T)
}

/** Geographic positions as the routing machine passes them around. */
module Geo {
  /**
   * A latitude/longitude pair in degrees. The source uses floating point
   * numbers; here they are exact reals, compared only by an abstract distance
   * and formatted only by an abstract number formatter.
   */
  datatype LatLng = LatLng(lat: real, lng: real)
}

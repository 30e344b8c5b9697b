/** What the path lists of libmultipath/structs.c have in common. */
module Paths {

  /** store_path refuses a path with neither a device number nor a device name. */
  predicate Storable(dev: string, dev_t: string) { dev != "" || dev_t != "" }
}

// Where the shipped code does not do what its comments say it should, both versions are modelled.
module Variants {
  datatype Variant = Shipped | Intended
}

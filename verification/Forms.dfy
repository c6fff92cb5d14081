/** The two forms in which a passage is modelled where the code departs from what is around it. */
module Forms {

  datatype Form = Written | Repaired
}

/** The toast notifications the components raise, treated as output events. */
module Toasts {

  /** A toast with its title, description and whether it uses the "destructive" variant. */
  datatype Toast = Toast(title: string, description: string, destructive: bool)
}

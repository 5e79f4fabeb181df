/** `Resolver` (src/include/resolver.rs): stand-alone path classifiers and a
    path resolver. None of them touches the filesystem except `ResolvePath`,
    which asks `pathExists` once. */
module Resolver {
  import opened Common
  import opened Errors
  import opened Io

  /** `is_url` */
  predicate IsUrl(path: string) {
    StartsWith(path, "http://") || StartsWith(path, "https://")
  }

  /** `is_glob_pattern`: any of the three glob metacharacters. */
  predicate IsGlobPattern(path: string) {
    '*' in path || '?' in path || '[' in path
  }

  /** `is_json_file`: case-sensitive `.json` suffix. */
  predicate IsJsonFile(path: string) {
    EndsWith(path, ".json")
  }

  /** `resolve_path`: the joined path if it exists, otherwise an include error
      that names the joined path (not the relative one). */
  function ResolvePath(env: Env, baseDir: Path, relativePath: string): (r: Result<Path>)
    ensures r.Ok? <==> env.pathExists(env.join(baseDir, relativePath))
    ensures r.Ok? ==> r.value == env.join(baseDir, relativePath)
    ensures r.Err? ==> r.error == Include("File not found: " + env.join(baseDir, relativePath))
  {
    var fullPath := env.join(baseDir, relativePath);
    if !env.pathExists(fullPath) then Err(Include("File not found: " + fullPath))
    else Ok(fullPath)
  }
}
